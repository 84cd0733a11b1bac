/** The PCI Express link retrain: target speeds on both ends, at most two recovery
    requests, bounded observation, and restoration of Link Control on every exit. */
module Retrain {
  import opened Boards
  import opened Registers

  // ----- layout -----

  const RETRAIN_LINK: bv16 := 0x20
  const TARGET_SPEED: bv16 := 0xf
  const GEN2: bv16 := 2
  const CURRENT_SPEED: bv16 := 0xf

  function Targeting(ctl2: bv16): bv16 {
    (ctl2 & !TARGET_SPEED) | GEN2
  }

  predicate TargetsGen2(ctl2: bv16) {
    ctl2 & TARGET_SPEED == GEN2
  }

  /** A link status that reports 5.0 GT/s or more. */
  predicate AtLeastGen2(status: bv16) {
    status & CURRENT_SPEED >= GEN2
  }

  /** A Link Control word that asks for a retrain when it is written. */
  predicate Requesting(ctl: bv16) {
    ctl & RETRAIN_LINK != 0
  }

  function Retraining(ctl: bv16): bv16 {
    ctl | RETRAIN_LINK
  }

  lemma RestoreUndoes(was: bv16, now: bv16, mask: bv16)
    requires SameOutside16(now, was, mask)
    ensures Masked16(now, was, mask) == was
  {
  }

  lemma WrittenAgain(was: bv16, now: bv16, value: bv16, mask: bv16)
    requires SameOutside16(now, was, mask)
    ensures SameOutside16(Masked16(now, value, mask), was, mask)
  {
  }

  lemma TargetOnly(was: bv16, mask: bv16)
    ensures SameOutside16(Masked16(was, Targeting(was), mask), was, TARGET_SPEED)
  {
  }

  /** Where the target-speed bits can be written, the target is reached. */
  lemma TargetReached(was: bv16, mask: bv16)
    requires SpeedWritable(mask)
    ensures TargetsGen2(Masked16(was, Targeting(was), mask))
  {
  }

  predicate SpeedWritable(mask: bv16) {
    mask & TARGET_SPEED == TARGET_SPEED
  }

  lemma Same(a: bv16, field: bv16)
    ensures SameOutside16(a, a, field)
  {
  }

  /** Writing the current value changes nothing. */
  lemma WrittenSame(a: bv16, mask: bv16)
    ensures Masked16(a, a, mask) == a
  {
  }

  /** A request sets the retrain bit and nothing else. */
  lemma RetrainingRequests(ctl: bv16)
    ensures Requesting(Retraining(ctl)) && SameOutside16(Retraining(ctl), ctl, RETRAIN_LINK)
  {
  }

  // ----- the same in plain numbers -----

  /** The speed, current or target, that the low four bits of a word encode. */
  function Speed(word: bv16): int {
    word as int % 16
  }

  /** What the other bits hold. */
  function Rest(word: bv16): int {
    word as int / 16
  }

  lemma SameRest(a: bv16, b: bv16)
    requires SameOutside16(a, b, TARGET_SPEED)
    ensures Rest(a) == Rest(b)
  {
    SameQuotient(a, b);
  }

  lemma RequestsBitFive(ctl: bv16)
    ensures Requesting(ctl) <==> ctl as int / 32 % 2 == 1
  {
    BitFive(ctl);
  }

  lemma SpeedAsWord(status: bv16)
    ensures AtLeastGen2(status) <==> (status & 0xf) as int >= 2
    ensures TargetsGen2(status) <==> (status & 0xf) as int == 2
  {
  }

  /** 5.0 GT/s is the value 2 in the low four bits, of a status and of a target alike
      (sections 7.5.3.8 and 7.5.3.19 of the PCI Express Base Specification 5.0). */
  lemma SpeedIsTwo(status: bv16)
    ensures AtLeastGen2(status) <==> Speed(status) >= 2
    ensures TargetsGen2(status) <==> Speed(status) == 2
  {
    LowNibble(status);
    SpeedAsWord(status);
  }

  // ----- the firmware's policy -----

  datatype Policy = Policy(cya: bv32, linkConfig: bv32, linkRate: bv32)

  /** The three registers show the Gen2 policy the retrain builds on. */
  predicate PolicyPresent(p: Policy) {
    p.cya & 4 == 0 && (p.linkConfig >> 18) & 3 == 2 && p.linkRate & 0x0006_0000 == 0x0004_0000
  }

  /** Bit 2 of the first register is clear, and the two-bit fields at bit 18 of the second
      and at bit 17 of the third hold 2. */
  lemma PolicyBits(p: Policy)
    ensures PolicyPresent(p) <==>
      p.cya / 4 % 2 == 0 && p.linkConfig / 0x4_0000 % 4 == 2 && p.linkRate / 0x2_0000 % 4 == 2
  {
  }

  // ----- the two ends of the link -----

  datatype End = Endpoint | Upstream

  datatype LinkRegisters = LinkRegisters(ctl: bv16, ctl2: bv16)

  /** The outcome of one configuration access: an access that reports an error may or may
      not have taken effect; `status` is what a status read returns. */
  datatype Reply = Reply(ok: bool, took: bool, status: bv16)

  /** A status read that worked and shows the speed asked for. */
  predicate Fast(r: Reply) {
    r.ok && AtLeastGen2(r.status)
  }

  /** No status read from position `first` on shows the speed asked for. */
  ghost predicate AllSlow(seen: seq<Reply>, first: nat) {
    forall k :: first <= k < |seen| ==> !Fast(seen[k])
  }

  /** Only the last status read from position `first` on shows it. */
  ghost predicate LastFast(seen: seq<Reply>, first: nat) {
    first < |seen| && Fast(seen[|seen| - 1]) && AllSlow(seen[..|seen| - 1], first)
  }

  datatype Outcome =
    | Unsupported
    | NoBridge
    | MapFailed
    | PolicyMissing
    | CapabilityError
    | Stopped
    | Passed(attempt: nat)
    | NotPassed

  const WINDOW := 200
  const PL_CONTROL: bv32 := 6

  // ----- what was written to Link Control -----

  /** One attempt to write Link Control. */
  datatype CtlWrite = CtlWrite(end: End, value: bv16)

  /** The ends at which some writes ask for a retrain, in order. */
  ghost function Requests(writes: seq<CtlWrite>): seq<End> {
    if writes == [] then []
    else (if Requesting(writes[0].value) then [writes[0].end] else []) + Requests(writes[1..])
  }

  const TURNS := [Endpoint, Upstream, Endpoint, Upstream]

  /** The first `count` writes of two recovery requests. */
  ghost function Asking(gpuCtl: bv16, upCtl: bv16, count: nat): seq<CtlWrite>
    requires count <= 4
  {
    seq(count, i requires 0 <= i < 4 =>
      CtlWrite(TURNS[i], if TURNS[i].Endpoint? then Retraining(gpuCtl) else Retraining(upCtl)))
  }

  ghost function Restoring(gpuCtl: bv16, upCtl: bv16): seq<CtlWrite> {
    [CtlWrite(Endpoint, gpuCtl), CtlWrite(Upstream, upCtl)]
  }

  lemma {:induction false} RequestsJoin(a: seq<CtlWrite>, b: seq<CtlWrite>)
    ensures Requests(a + b) == Requests(a) + Requests(b)
  {
    if a == [] {
      assert a + b == b;
    } else {
      assert (a + b)[1..] == a[1..] + b;
      RequestsJoin(a[1..], b);
    }
  }

  lemma {:induction false} AskingRequests(gpuCtl: bv16, upCtl: bv16, count: nat)
    requires count <= 4
    ensures Requests(Asking(gpuCtl, upCtl, count)) == TURNS[..count]
  {
    hide Requesting, Retraining;
    if count == 0 {
    } else {
      var asking := Asking(gpuCtl, upCtl, count);
      assert asking == Asking(gpuCtl, upCtl, count - 1) + [asking[count - 1]];
      RequestsJoin(Asking(gpuCtl, upCtl, count - 1), [asking[count - 1]]);
      AskingRequests(gpuCtl, upCtl, count - 1);
      RetrainingRequests(gpuCtl);
      RetrainingRequests(upCtl);
      assert Requests([asking[count - 1]]) == [TURNS[count - 1]];
      assert TURNS[..count] == TURNS[..count - 1] + [TURNS[count - 1]];
    }
  }

  /** Putting back two words without the retrain bit requests nothing. */
  lemma RestoringRequestsNothing(gpuCtl: bv16, upCtl: bv16)
    requires !Requesting(gpuCtl) && !Requesting(upCtl)
    ensures Requests(Restoring(gpuCtl, upCtl)) == []
    ensures Requests([CtlWrite(Upstream, upCtl), CtlWrite(Endpoint, gpuCtl)]) == []
  {
    hide Requesting;
    var one, two := [CtlWrite(Endpoint, gpuCtl)], [CtlWrite(Upstream, upCtl)];
    assert Requests(one) == [] && Requests(two) == [];
    assert Restoring(gpuCtl, upCtl) == one + two;
    RequestsJoin(one, two);
    assert [CtlWrite(Upstream, upCtl), CtlWrite(Endpoint, gpuCtl)] == two + one;
    RequestsJoin(two, one);
  }

  /** Both old words, upstream port first, as the exit before any request writes them. */
  ghost function PutBack(gpuCtl: bv16, upCtl: bv16): seq<CtlWrite> {
    [CtlWrite(Upstream, upCtl), CtlWrite(Endpoint, gpuCtl)]
  }

  /** The outcome against the endpoint status reads made: a pass is reported exactly if one
      of them was fast, at that one and in the round it names; the second pair of requests
      follows a full window without a fast one; observation without a pass ends after two
      full windows. */
  ghost predicate Observed(o: Outcome, asked: nat, before: seq<Reply>, seen: seq<Reply>) {
    && before <= seen && |seen| <= |before| + 400
    && var rounds := |seen| - |before|;
    && (o.Passed? <==> !AllSlow(seen, |before|))
    && (o.Passed? ==> LastFast(seen, |before|) && o.attempt == rounds && asked == (if rounds <= 200 then 2 else 4))
    && (o.NotPassed? ==> rounds == 400 && asked == 4)
    && (o.Stopped? ==> (rounds == 0 && 1 <= asked <= 2) || (rounds == 200 && 3 <= asked <= 4))
    && (!o.Passed? && !o.NotPassed? && !o.Stopped? ==> rounds == asked == 0)
    && (asked > 0 ==> o.Passed? || o.NotPassed? || o.Stopped?)
  }

  lemma FastIsTwo(r: Reply)
    ensures Fast(r) <==> r.ok && Speed(r.status) >= 2
  {
    SpeedIsTwo(r.status);
  }

  /** What was written to Link Control: the first writes of two requests and then both old
      words, or, without a request, only the old words if `putBack` says so. */
  ghost predicate Written(
    before: seq<CtlWrite>, after: seq<CtlWrite>, gpuCtl: bv16, upCtl: bv16, asked: nat, putBack: bool)
  {
    && asked <= 4
    && after == before +
         if asked > 0 then Asking(gpuCtl, upCtl, asked) + Restoring(gpuCtl, upCtl)
         else if putBack then PutBack(gpuCtl, upCtl)
         else []
  }

  /** The ends at which the writes made in between ask for a retrain. */
  ghost function RequestsSince(before: seq<CtlWrite>, after: seq<CtlWrite>): seq<End> {
    if |before| <= |after| then Requests(after[|before|..]) else []
  }

  lemma AskedAndRestored(before: seq<CtlWrite>, after: seq<CtlWrite>, gpuCtl: bv16, upCtl: bv16, asked: nat)
    requires 1 <= asked <= 4
    requires after == before + Asking(gpuCtl, upCtl, asked) + Restoring(gpuCtl, upCtl)
    ensures Written(before, after, gpuCtl, upCtl, asked, false)
    ensures Written(before, after, gpuCtl, upCtl, asked, true)
  {
    hide Asking, Restoring;
  }

  lemma PutBackOnly(before: seq<CtlWrite>, after: seq<CtlWrite>, gpuCtl: bv16, upCtl: bv16, putBack: bool)
    requires after == before + if putBack then PutBack(gpuCtl, upCtl) else []
    ensures Written(before, after, gpuCtl, upCtl, 0, putBack)
  {
  }

  /** Where the old words lack the retrain bit, the requests are the first turns. */
  lemma WrittenRequests(
    before: seq<CtlWrite>, after: seq<CtlWrite>, gpuCtl: bv16, upCtl: bv16, asked: nat, putBack: bool)
    requires Written(before, after, gpuCtl, upCtl, asked, putBack) && !Requesting(gpuCtl) && !Requesting(upCtl)
    ensures asked <= 4 && RequestsSince(before, after) == TURNS[..asked]
  {
    hide Asking, Restoring, Requesting, Requests;
    var added := after[|before|..];
    RestoringRequestsNothing(gpuCtl, upCtl);
    NothingRequested();
    if asked > 0 {
      assert added == Asking(gpuCtl, upCtl, asked) + Restoring(gpuCtl, upCtl);
      AskingRequests(gpuCtl, upCtl, asked);
      RequestsJoin(Asking(gpuCtl, upCtl, asked), Restoring(gpuCtl, upCtl));
    } else if putBack {
      assert added == PutBack(gpuCtl, upCtl);
    } else {
      assert added == [];
    }
  }

  lemma NothingObserved(o: Outcome, seen: seq<Reply>)
    requires !o.Passed? && !o.NotPassed? && !o.Stopped?
    ensures Observed(o, 0, seen, seen)
  {
  }

  lemma PassedIsFast(o: Outcome, asked: nat, before: seq<Reply>, seen: seq<Reply>)
    requires Observed(o, asked, before, seen) && o.Passed?
    ensures |seen| > 0 && var last := seen[|seen| - 1]; last.ok && Speed(last.status) >= 2
  {
    FastIsTwo(seen[|seen| - 1]);
  }

  lemma SlowJoins(seen: seq<Reply>, first: nat, middle: nat)
    requires first <= middle <= |seen| && AllSlow(seen[..middle], first)
    ensures AllSlow(seen, middle) ==> AllSlow(seen, first)
    ensures LastFast(seen, middle) ==> LastFast(seen, first)
  {
    hide Fast;
    assert forall k :: first <= k < middle ==> seen[..middle][k] == seen[k];
  }

  lemma NothingRequested()
    ensures Requests([]) == []
  {
  }

  class Link {
    var gpu: LinkRegisters
    var up: LinkRegisters
    const gpuMask: LinkRegisters
    const upMask: LinkRegisters
    const id: Identity
    const policy: Policy
    var plControl: bv32
    const env: nat -> Reply
    var accesses: nat
    var mapped: bool
    ghost var maps: nat
    ghost var writes: seq<CtlWrite>
    ghost var seen: seq<Reply>

    constructor (gpu: LinkRegisters, up: LinkRegisters, gpuMask: LinkRegisters, upMask: LinkRegisters,
        id: Identity, policy: Policy, plControl: bv32, env: nat -> Reply)
      ensures this.gpu == gpu && this.up == up && this.gpuMask == gpuMask && this.upMask == upMask
      ensures this.id == id && this.policy == policy && this.env == env && this.plControl == plControl
      ensures accesses == maps == 0 && !mapped && writes == [] && seen == []
    {
      this.gpu, this.up, this.gpuMask, this.upMask := gpu, up, gpuMask, upMask;
      this.id, this.policy, this.plControl, this.env := id, policy, plControl, env;
      this.accesses, this.maps, this.mapped, this.writes, this.seen := 0, 0, false, [], [];
    }

    /** Every access works, and the target speed of both ends can be written. */
    ghost predicate Healthy() {
      (forall n :: env(n).ok) && SpeedWritable(gpuMask.ctl2) && SpeedWritable(upMask.ctl2)
    }

    /** The retrain bit reads as zero at both ends, as section 7.5.3.7 of the PCI Express
        Base Specification 5.0 demands. */
    ghost predicate Conforms()
      reads this
    {
      !Requesting(gpu.ctl) && !Requesting(up.ctl)
    }

    /** The four reads that begin with access `first` work. */
    ghost predicate ReadsWork(first: nat) {
      forall n :: first <= n < first + 4 ==> env(n).ok
    }

    // ----- the mapping of BAR0 -----

    method Map(works: bool) returns (ok: bool)
      requires !mapped
      modifies this`mapped, this`maps
      ensures ok == mapped == works && maps == old(maps) + (if works then 1 else 0)
    {
      if works { mapped, maps := true, maps + 1; }
      ok := works;
    }

    method Unmap()
      requires mapped
      modifies this`mapped
      ensures !mapped
    {
      mapped := false;
    }

    method ReadPolicy() returns (p: Policy)
      requires mapped
      ensures p == policy
    {
      p := policy;
    }

    method WritePlControl(value: bv32)
      requires mapped
      modifies this`plControl
      ensures plControl == value
    {
      plControl := value;
    }

    // ----- configuration accesses -----

    /** Reads one register; a successful read returns its value. */
    method Read(e: End, second: bool) returns (ok: bool, value: bv16)
      modifies this`accesses
      ensures accesses == old(accesses) + 1 && ok == env(old(accesses)).ok
      ensures ok ==> value == var r := if e.Endpoint? then gpu else up; if second then r.ctl2 else r.ctl
    {
      ok := env(accesses).ok;
      var r := if e.Endpoint? then gpu else up;
      value := if second then r.ctl2 else r.ctl;
      accesses := accesses + 1;
    }

    /** Reads one link status; what the endpoint answered is remembered. */
    method ReadStatus(e: End) returns (ok: bool, status: bv16)
      modifies this`accesses, this`seen
      ensures accesses == old(accesses) + 1 && ok == env(old(accesses)).ok && status == env(old(accesses)).status
      ensures seen == if e.Endpoint? then old(seen) + [env(old(accesses))] else old(seen)
    {
      var r := env(accesses);
      ok, status := r.ok, r.status;
      accesses := accesses + 1;
      if e.Endpoint? { seen := seen + [r]; }
    }

    method WriteGpuCtl(value: bv16) returns (ok: bool)
      modifies this`gpu, this`accesses, this`writes
      ensures accesses == old(accesses) + 1 && ok == env(old(accesses)).ok && gpu.ctl2 == old(gpu.ctl2)
      ensures gpu.ctl == Masked16(old(gpu.ctl), value, gpuMask.ctl) || (!ok && gpu.ctl == old(gpu.ctl))
      ensures writes == old(writes) + [CtlWrite(Endpoint, value)]
    {
      var r := env(accesses);
      if r.ok || r.took { gpu := gpu.(ctl := Masked16(gpu.ctl, value, gpuMask.ctl)); }
      accesses, writes := accesses + 1, writes + [CtlWrite(Endpoint, value)];
      ok := r.ok;
    }

    method WriteUpCtl(value: bv16) returns (ok: bool)
      modifies this`up, this`accesses, this`writes
      ensures accesses == old(accesses) + 1 && ok == env(old(accesses)).ok && up.ctl2 == old(up.ctl2)
      ensures up.ctl == Masked16(old(up.ctl), value, upMask.ctl) || (!ok && up.ctl == old(up.ctl))
      ensures writes == old(writes) + [CtlWrite(Upstream, value)]
    {
      var r := env(accesses);
      if r.ok || r.took { up := up.(ctl := Masked16(up.ctl, value, upMask.ctl)); }
      accesses, writes := accesses + 1, writes + [CtlWrite(Upstream, value)];
      ok := r.ok;
    }

    method WriteGpuCtl2(value: bv16) returns (ok: bool)
      modifies this`gpu, this`accesses
      ensures accesses == old(accesses) + 1 && ok == env(old(accesses)).ok && gpu.ctl == old(gpu.ctl)
      ensures gpu.ctl2 == Masked16(old(gpu.ctl2), value, gpuMask.ctl2) || (!ok && gpu.ctl2 == old(gpu.ctl2))
    {
      var r := env(accesses);
      if r.ok || r.took { gpu := gpu.(ctl2 := Masked16(gpu.ctl2, value, gpuMask.ctl2)); }
      accesses := accesses + 1;
      ok := r.ok;
    }

    method WriteUpCtl2(value: bv16) returns (ok: bool)
      modifies this`up, this`accesses
      ensures accesses == old(accesses) + 1 && ok == env(old(accesses)).ok && up.ctl == old(up.ctl)
      ensures up.ctl2 == Masked16(old(up.ctl2), value, upMask.ctl2) || (!ok && up.ctl2 == old(up.ctl2))
    {
      var r := env(accesses);
      if r.ok || r.took { up := up.(ctl2 := Masked16(up.ctl2, value, upMask.ctl2)); }
      accesses := accesses + 1;
      ok := r.ok;
    }

    // ----- the routine -----

    /** Link Control of both ends differs from the given values only in bits that a write
        can put back. */
    ghost predicate Restorable(gpuCtl: bv16, upCtl: bv16)
      reads this
    {
      SameOutside16(gpu.ctl, gpuCtl, gpuMask.ctl) && SameOutside16(up.ctl, upCtl, upMask.ctl)
    }

    /** Of Link Control 2 only the target speed differs from the given values. */
    ghost predicate TargetsOnly(gpuCtl2: bv16, upCtl2: bv16)
      reads this
    {
      SameOutside16(gpu.ctl2, gpuCtl2, TARGET_SPEED) && SameOutside16(up.ctl2, upCtl2, TARGET_SPEED)
    }

    /** Both target speeds, with readback. */
    method SetTargets(gpuCtl2: bv16, upCtl2: bv16) returns (ok: bool)
      requires gpuCtl2 == gpu.ctl2 && upCtl2 == up.ctl2
      modifies this`gpu, this`up, this`accesses
      ensures gpu.ctl == old(gpu.ctl) && up.ctl == old(up.ctl)
      ensures TargetsOnly(old(gpu.ctl2), old(up.ctl2))
      ensures Rest(gpu.ctl2) == Rest(old(gpu.ctl2)) && Rest(up.ctl2) == Rest(old(up.ctl2))
      ensures ok ==> TargetsGen2(gpu.ctl2) && TargetsGen2(up.ctl2)
      ensures ok ==> Speed(gpu.ctl2) == 2 && Speed(up.ctl2) == 2
      ensures Healthy() ==> ok
    {
      hide Masked16, SameOutside16, Targeting, TargetsGen2, SpeedWritable, Speed, Rest;
      ok := WriteTargets(gpuCtl2, upCtl2);
      SameRest(gpu.ctl2, gpuCtl2);
      SameRest(up.ctl2, upCtl2);
      SpeedIsTwo(gpu.ctl2);
      SpeedIsTwo(up.ctl2);
    }

    /** The writes and the readback of `SetTargets`. */
    method WriteTargets(gpuCtl2: bv16, upCtl2: bv16) returns (ok: bool)
      requires gpuCtl2 == gpu.ctl2 && upCtl2 == up.ctl2
      modifies this`gpu, this`up, this`accesses
      ensures gpu.ctl == old(gpu.ctl) && up.ctl == old(up.ctl)
      ensures TargetsOnly(old(gpu.ctl2), old(up.ctl2))
      ensures ok ==> TargetsGen2(gpu.ctl2) && TargetsGen2(up.ctl2)
      ensures Healthy() ==> ok
    {
      hide Masked16, SameOutside16, Targeting, TargetsGen2, SpeedWritable;
      if SpeedWritable(gpuMask.ctl2) { TargetReached(gpuCtl2, gpuMask.ctl2); }
      if SpeedWritable(upMask.ctl2) { TargetReached(upCtl2, upMask.ctl2); }
      Same(gpuCtl2, TARGET_SPEED);
      Same(upCtl2, TARGET_SPEED);
      TargetOnly(gpuCtl2, gpuMask.ctl2);
      TargetOnly(upCtl2, upMask.ctl2);
      ok := WriteGpuCtl2(Targeting(gpuCtl2));
      if !ok { return; }
      ok := WriteUpCtl2(Targeting(upCtl2));
      if !ok { return; }
      var gpuNow, upNow: bv16;
      ok, gpuNow := Read(Endpoint, true);
      if !ok { return; }
      ok, upNow := Read(Upstream, true);
      if !ok { return; }
      ok := TargetsGen2(gpuNow) && TargetsGen2(upNow);
    }

    /** One recovery request: at the endpoint and, if that worked, at the upstream port. */
    method Request(gpuCtl: bv16, upCtl: bv16) returns (ok: bool, ghost asked: nat)
      requires Restorable(gpuCtl, upCtl)
      modifies this`gpu, this`up, this`accesses, this`writes
      ensures Restorable(gpuCtl, upCtl) && gpu.ctl2 == old(gpu.ctl2) && up.ctl2 == old(up.ctl2)
      ensures asked == (if env(old(accesses)).ok then 2 else 1) && accesses == old(accesses) + asked
      ensures writes == old(writes) + Asking(gpuCtl, upCtl, asked)
      ensures Requests(Asking(gpuCtl, upCtl, asked)) == [Endpoint, Upstream][..asked]
      ensures ok <==> env(old(accesses)).ok && env(old(accesses) + 1).ok
    {
      hide Masked16, SameOutside16, Requesting, Retraining, Requests;
      WrittenAgain(gpuCtl, gpu.ctl, Retraining(gpuCtl), gpuMask.ctl);
      WrittenAgain(upCtl, up.ctl, Retraining(upCtl), upMask.ctl);
      asked := 1;
      AskingRequests(gpuCtl, upCtl, 1);
      AskingRequests(gpuCtl, upCtl, 2);
      ok := WriteGpuCtl(Retraining(gpuCtl));
      if !ok { return; }
      asked := 2;
      ok := WriteUpCtl(Retraining(upCtl));
    }

    /** The observation window: up to 200 rounds of reading both status registers. */
    method Observe() returns (passed: bool, rounds: nat)
      modifies this`accesses, this`seen
      ensures 1 <= rounds <= 200 && accesses == old(accesses) + 2 * rounds
      ensures old(seen) <= seen && |seen| == |old(seen)| + rounds
      // it passes in the first round whose endpoint status was read and is fast enough
      ensures if passed then LastFast(seen, |old(seen)|) else rounds == 200 && AllSlow(seen, |old(seen)|)
      // and that is a status with a speed of 2 or more
      ensures passed ==> var last := seen[|seen| - 1]; last.ok && Speed(last.status) >= 2
    {
      hide AtLeastGen2;
      passed, rounds := false, 0;
      while rounds < WINDOW
        invariant rounds <= WINDOW && accesses == old(accesses) + 2 * rounds
        invariant old(seen) <= seen && |seen| == |old(seen)| + rounds
        invariant AllSlow(seen, |old(seen)|)
      {
        ghost var before := seen;
        var ok, status := ReadStatus(Endpoint);
        var _, _ := ReadStatus(Upstream);
        assert seen[..|seen| - 1] == before;
        rounds := rounds + 1;
        SpeedIsTwo(status);
        if ok && AtLeastGen2(status) { return true, rounds; }
      }
    }

    /** Both Link Control words back, errors ignored. */
    method Restore(gpuCtl: bv16, upCtl: bv16)
      requires Restorable(gpuCtl, upCtl)
      modifies this`gpu, this`up, this`accesses, this`writes
      ensures gpu.ctl2 == old(gpu.ctl2) && up.ctl2 == old(up.ctl2) && accesses == old(accesses) + 2
      ensures env(old(accesses)).ok ==> gpu.ctl == gpuCtl
      ensures env(old(accesses) + 1).ok ==> up.ctl == upCtl
      ensures writes == old(writes) + Restoring(gpuCtl, upCtl)
    {
      hide Masked16, SameOutside16;
      RestoreUndoes(gpuCtl, gpu.ctl, gpuMask.ctl);
      RestoreUndoes(upCtl, up.ctl, upMask.ctl);
      var _ := WriteGpuCtl(gpuCtl);
      var _ := WriteUpCtl(upCtl);
    }

    /** One request and, if both ends took it, one observation window. */
    method Round(gpuCtl: bv16, upCtl: bv16) returns (ok: bool, passed: bool, rounds: nat, ghost asked: nat)
      requires Restorable(gpuCtl, upCtl)
      modifies this`gpu, this`up, this`accesses, this`writes, this`seen
      ensures Restorable(gpuCtl, upCtl) && gpu.ctl2 == old(gpu.ctl2) && up.ctl2 == old(up.ctl2)
      ensures 1 <= asked <= 2 && writes == old(writes) + Asking(gpuCtl, upCtl, asked) && (ok ==> asked == 2)
      ensures old(seen) <= seen && |seen| == |old(seen)| + rounds && rounds <= WINDOW
      ensures ok <==> rounds > 0
      ensures if passed then LastFast(seen, |old(seen)|) else AllSlow(seen, |old(seen)|) && rounds in {0, WINDOW}
      ensures Healthy() ==> ok
    {
      hide Masked16, SameOutside16, Fast, Asking;
      passed, rounds := false, 0;
      ok, asked := Request(gpuCtl, upCtl);
      if ok { passed, rounds := Observe(); }
    }

    /** From the unmapping on: up to two requests, each with its window, and both words back. */
    method RequestAndObserve(gpuCtl: bv16, upCtl: bv16) returns (o: Outcome, ghost asked: nat)
      requires Restorable(gpuCtl, upCtl)
      modifies this`gpu, this`up, this`accesses, this`writes, this`seen
      ensures gpu.ctl2 == old(gpu.ctl2) && up.ctl2 == old(up.ctl2)
      ensures accesses >= 2
      ensures env(accesses - 2).ok ==> gpu.ctl == gpuCtl
      ensures env(accesses - 1).ok ==> up.ctl == upCtl
      ensures 1 <= asked <= 4
      ensures writes == old(writes) + Asking(gpuCtl, upCtl, asked) + Restoring(gpuCtl, upCtl)
      ensures Observed(o, asked, old(seen), seen)
      ensures o.Passed? || o.NotPassed? || o.Stopped?
      ensures Healthy() ==> !o.Stopped?
    {
      hide Masked16, SameOutside16, Fast, Healthy, Restoring, Retraining;
      var ok, passed, rounds, count := Round(gpuCtl, upCtl);
      var offset := 0;
      asked := count;
      if ok && !passed {
        offset := WINDOW;
        ghost var first, written := seen, writes;
        ok, passed, rounds, count := Round(gpuCtl, upCtl);
        asked := 2 + count;
        assert Asking(gpuCtl, upCtl, 2) + Asking(gpuCtl, upCtl, count) == Asking(gpuCtl, upCtl, asked);
        assert written + Asking(gpuCtl, upCtl, count) == old(writes) + Asking(gpuCtl, upCtl, asked);
        assert AllSlow(seen[..|first|], |old(seen)|) by { assert seen[..|first|] == first; }
        SlowJoins(seen, |old(seen)|, |first|);
      }
      Restore(gpuCtl, upCtl);
      o := if !ok then Stopped else if passed then Passed(offset + rounds) else NotPassed;
    }

    /** The whole routine. */
    method RetrainGen2(hasBridge: bool, mapWorks: bool) returns (o: Outcome, ghost asked: nat)
      requires !mapped
      modifies this
      // the registers are mapped at most once, and the mapping is released
      ensures !mapped && maps == old(maps) + (if IsCmp50(id) && hasBridge && mapWorks then 1 else 0)
      // of Link Control 2 only the low four bits may differ
      ensures TargetsOnly(old(gpu.ctl2), old(up.ctl2))
      ensures Rest(gpu.ctl2) == Rest(old(gpu.ctl2)) && Rest(up.ctl2) == Rest(old(up.ctl2))
      // what is written to Link Control: the first `asked` writes of two requests and then
      // both old words; without a request the old words, if a step after the reads failed
      ensures Written(old(writes), writes, old(gpu.ctl), old(up.ctl), asked,
                      o.CapabilityError? && ReadsWork(old(accesses)))
      ensures asked > 0 ==>
        && accesses >= 2
        && (env(accesses - 2).ok ==> gpu.ctl == old(gpu.ctl)) && (env(accesses - 1).ok ==> up.ctl == old(up.ctl))
      ensures asked == 0 ==> gpu.ctl == old(gpu.ctl) && up.ctl == old(up.ctl)
      // so retrains are requested at the endpoint first, in turn, and at most twice
      ensures old(Conforms()) ==> asked <= 4 && RequestsSince(old(writes), writes) == TURNS[..asked]
      // requests need a supported card, the policy, and both targets read back
      ensures asked > 0 || plControl != old(plControl) ==>
        IsCmp50(id) && hasBridge && mapWorks && PolicyPresent(policy)
        && TargetsGen2(gpu.ctl2) && TargetsGen2(up.ctl2) && plControl == PL_CONTROL
      ensures asked > 0 || plControl != old(plControl) ==>
        && Speed(gpu.ctl2) == 2 && Speed(up.ctl2) == 2 && plControl == 6
      // a pass is reported exactly if some endpoint status read was fast enough, and then
      // it was the last one
      ensures Observed(o, asked, old(seen), seen)
      ensures o.Passed? ==> |seen| > 0 && var last := seen[|seen| - 1]; last.ok && Speed(last.status) >= 2
      // with healthy accesses, every supported card under the policy is retrained and observed
      ensures Healthy() && IsCmp50(id) && hasBridge && mapWorks && PolicyPresent(policy) ==> o.Passed? || o.NotPassed?
      ensures o in {Unsupported, NoBridge, MapFailed, PolicyMissing} ==>
        accesses == old(accesses) && gpu == old(gpu) && up == old(up) && writes == old(writes)
    {
      hide Masked16, SameOutside16, Fast, TargetsGen2, PolicyPresent, Healthy, Asking, Restoring, Requesting, Requests;
      hide Speed, Rest, ReadsWork, Observed, Written, RequestsSince;
      var gpuCtl, upCtl: bv16;
      ghost var written, words, past := writes, (gpu.ctl, up.ctl), seen;
      ghost var targets, conforms, first := (gpu.ctl2, up.ctl2), Conforms(), accesses;
      o, gpuCtl, upCtl := Prepare(hasBridge, mapWorks);
      SameRest(gpu.ctl2, targets.0);
      SameRest(up.ctl2, targets.1);
      asked := 0;
      if o.NotPassed? {
        Same(gpuCtl, gpuMask.ctl);
        Same(upCtl, upMask.ctl);
        o, asked := RequestAndObserve(gpuCtl, upCtl);
        AskedAndRestored(written, writes, words.0, words.1, asked);
        SpeedIsTwo(gpu.ctl2);
        SpeedIsTwo(up.ctl2);
        if o.Passed? { PassedIsFast(o, asked, past, seen); }
      } else {
        NothingObserved(o, seen);
        PutBackOnly(written, writes, words.0, words.1, o.CapabilityError? && ReadsWork(first));
      }
      if conforms {
        WrittenRequests(written, writes, words.0, words.1, asked, o.CapabilityError? && ReadsWork(first));
      }
    }

    method ReadAll() returns (ok: bool, gpuCtl: bv16, gpuCtl2: bv16, upCtl: bv16, upCtl2: bv16)
      modifies this`accesses
      ensures ok ==> gpu == LinkRegisters(gpuCtl, gpuCtl2) && up == LinkRegisters(upCtl, upCtl2)
      ensures Healthy() ==> ok
      ensures ok <==> ReadsWork(old(accesses))
    {
      gpuCtl2, upCtl, upCtl2 := 0, 0, 0;
      ok, gpuCtl := Read(Endpoint, false);
      if !ok { return; }
      ok, gpuCtl2 := Read(Endpoint, true);
      if !ok { return; }
      ok, upCtl := Read(Upstream, false);
      if !ok { return; }
      ok, upCtl2 := Read(Upstream, true);
    }

    /** The exit before any request: both words are written back unchanged, upstream port
        first, errors ignored. */
    method KeepBoth(gpuCtl: bv16, upCtl: bv16)
      requires gpuCtl == gpu.ctl && upCtl == up.ctl
      modifies this`gpu, this`up, this`accesses, this`writes
      ensures gpu == old(gpu) && up == old(up) && writes == old(writes) + PutBack(gpuCtl, upCtl)
    {
      hide Masked16;
      WrittenSame(gpuCtl, gpuMask.ctl);
      WrittenSame(upCtl, upMask.ctl);
      var _ := WriteUpCtl(upCtl);
      var _ := WriteGpuCtl(gpuCtl);
    }

    /** The four reads and both targets; a failure after the reads writes both words back. */
    method Program() returns (ok: bool, gpuCtl: bv16, upCtl: bv16)
      modifies this`gpu, this`up, this`accesses, this`writes
      ensures gpu.ctl == old(gpu.ctl) && up.ctl == old(up.ctl)
      ensures TargetsOnly(old(gpu.ctl2), old(up.ctl2))
      ensures writes == old(writes)
        + if !ok && ReadsWork(old(accesses)) then PutBack(old(gpu.ctl), old(up.ctl)) else []
      ensures ok ==> TargetsGen2(gpu.ctl2) && TargetsGen2(up.ctl2) && gpuCtl == gpu.ctl && upCtl == up.ctl
      ensures Healthy() ==> ok
    {
      hide SameOutside16, TargetsGen2, Healthy, PutBack, ReadsWork;
      Same(gpu.ctl2, TARGET_SPEED);
      Same(up.ctl2, TARGET_SPEED);
      var gpuCtl2, upCtl2: bv16;
      ok, gpuCtl, gpuCtl2, upCtl, upCtl2 := ReadAll();
      if !ok { return; }
      ok := SetTargets(gpuCtl2, upCtl2);
      if !ok { KeepBoth(gpuCtl, upCtl); }
    }

    /** Up to the unmapping: the checks, both target speeds, and the control word
        that lets the endpoint recover. `NotPassed` means that requests may begin. */
    method Prepare(hasBridge: bool, mapWorks: bool)
      returns (o: Outcome, gpuCtl: bv16, upCtl: bv16)
      requires !mapped
      modifies this`gpu, this`up, this`accesses, this`plControl, this`mapped, this`maps, this`writes
      ensures o in {Unsupported, NoBridge, MapFailed, PolicyMissing, CapabilityError, NotPassed}
      ensures !mapped && maps == old(maps) + (if IsCmp50(id) && hasBridge && mapWorks then 1 else 0)
      ensures gpu.ctl == old(gpu.ctl) && up.ctl == old(up.ctl)
      ensures TargetsOnly(old(gpu.ctl2), old(up.ctl2))
      ensures writes == old(writes)
        + if o.CapabilityError? && ReadsWork(old(accesses)) then PutBack(old(gpu.ctl), old(up.ctl)) else []
      ensures o.NotPassed? ==>
        && IsCmp50(id) && hasBridge && mapWorks && PolicyPresent(policy)
        && TargetsGen2(gpu.ctl2) && TargetsGen2(up.ctl2) && plControl == PL_CONTROL
        && gpuCtl == gpu.ctl && upCtl == up.ctl
      ensures !o.NotPassed? ==> plControl == old(plControl)
      ensures o.Unsupported? <==> !IsCmp50(id)
      ensures o.NoBridge? <==> IsCmp50(id) && !hasBridge
      ensures o.MapFailed? <==> IsCmp50(id) && hasBridge && !mapWorks
      ensures o.PolicyMissing? <==> IsCmp50(id) && hasBridge && mapWorks && !PolicyPresent(policy)
      ensures Healthy() ==> !o.CapabilityError?
      ensures !o.NotPassed? && !o.CapabilityError? ==>
        accesses == old(accesses) && gpu == old(gpu) && up == old(up)
    {
      hide SameOutside16, TargetsGen2, PolicyPresent, Healthy, PutBack, ReadsWork;
      Same(gpu.ctl2, TARGET_SPEED);
      Same(up.ctl2, TARGET_SPEED);
      gpuCtl, upCtl := 0, 0;
      if !IsCmp50(id) { return Unsupported, 0, 0; }
      if !hasBridge { return NoBridge, 0, 0; }
      var ok := Map(mapWorks);
      if !ok { return MapFailed, 0, 0; }
      var p := ReadPolicy();
      if !PolicyPresent(p) {
        Unmap();
        return PolicyMissing, 0, 0;
      }
      ok, gpuCtl, upCtl := Program();
      if !ok {
        Unmap();
        return CapabilityError, 0, 0;
      }
      WritePlControl(PL_CONTROL);
      Unmap();
      o := NotPassed;
    }
  }
}
