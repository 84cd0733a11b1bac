/** Graphics cards, the governor's options, the control request and the checks
    made on both before any card is touched. */
module Cards {

  type U32 = n: int | 0 <= n < 0x1_0000_0000

  /** One entry of the hardware list. The subsystem word holds the vendor in its
      low and the device in its high half. */
  datatype Gpu = Gpu(index: int, deviceId: U32, subsystemId: U32, memoryBytes: nat)

  /** The options that decide behaviour, with the two load settings parsed. */
  datatype Config = Config(
    gpus: seq<Gpu>,
    idleAfter: int,
    utilThreshold: U32,
    fanAutoTemp: U32,
    hasClock: bool, clockMin: U32, clockMax: U32,
    hasCoreOffset: bool, coreOffset: int)

  datatype Control = Control(enabled: bool, profile: string, idleFanPercent: int)

  const DEVICE_ID := 0x1e09
  const GIB20 := 20 * 1024 * 1024 * 1024
  const MEMORY_SLACK := 512 * 1024 * 1024

  const PROFILES: map<string, int> := map[
    "cmp50-1x20gb" := 1,
    "cmp50-2x20gb" := 2,
    "cmp50-4x20gb" := 4,
    "cmp50-6x20gb" := 6,
    "cmp50-8x20gb" := 8
  ]

  /** A lookup in the profile table; like a Go map it yields zero for an unknown name. */
  function ProfileCount(profile: string): (n: int)
    ensures 0 <= n <= 8
    ensures profile in PROFILES ==> 0 < n
  {
    if profile in PROFILES then PROFILES[profile] else 0
  }

  predicate SupportedSubsystem(gpu: Gpu) {
    var vendor, device := gpu.subsystemId % 0x1_0000, gpu.subsystemId / 0x1_0000;
    (vendor == 0x10de && device == 0x1554) || (vendor == 0x1462 && device == 0x371f)
  }

  predicate Is20Gb(gpu: Gpu) {
    GIB20 - MEMORY_SLACK <= gpu.memoryBytes <= GIB20 + MEMORY_SLACK
  }

  /** The filter that decides whether a clean-up may touch a card. */
  predicate IsSupported(gpu: Gpu) {
    gpu.deviceId == DEVICE_ID && SupportedSubsystem(gpu) && Is20Gb(gpu)
  }

  /** Card indices the clean-up may touch. */
  ghost predicate SupportedIndex(gpus: seq<Gpu>, i: int) {
    exists k :: 0 <= k < |gpus| && gpus[k].index == i && IsSupported(gpus[k])
  }

  ghost predicate ListedIndex(gpus: seq<Gpu>, i: int) {
    exists k :: 0 <= k < |gpus| && gpus[k].index == i
  }

  // ----- the control request -----

  /** What reading and decoding the request file gave. */
  datatype Decoded =
    | Missing                       // no such file
    | Unreadable                    // any other reading or decoding error
    | Request(control: Control)

  datatype Loaded = Absent | Rejected | Accepted(control: Control)

  /** The checks made on a decoded request. */
  function LoadControl(d: Decoded): (r: Loaded)
    ensures r.Accepted? ==> d == Request(r.control) && WellFormed(r.control)
    ensures d.Request? && WellFormed(d.control) ==> r == Accepted(d.control)
    ensures r.Absent? <==> d.Missing?
  {
    match d
    case Missing => Absent
    case Unreadable => Rejected
    case Request(c) =>
      if c.profile !in PROFILES then Rejected
      else if c.idleFanPercent != 0 && (c.idleFanPercent < 15 || c.idleFanPercent > 100) then Rejected
      else Accepted(c)
  }

  /** A request names a known profile and asks for automatic fans or 15..100 percent. */
  predicate WellFormed(c: Control) {
    && c.profile in {"cmp50-1x20gb", "cmp50-2x20gb", "cmp50-4x20gb", "cmp50-6x20gb", "cmp50-8x20gb"}
    && (c.idleFanPercent == 0 || 15 <= c.idleFanPercent <= 100)
  }

  // ----- profile validation -----

  datatype Refusal =
    | Fine
    | TooFew(count: int, found: int)
    | NotContiguous
    | WrongDevice(index: int)
    | WrongSubsystem(index: int)
    | WrongMemory(index: int)

  /** What is wrong with the card at one position, in the order it is examined. */
  function CardRefusal(gpu: Gpu, index: int): Refusal {
    if gpu.index != index then NotContiguous
    else if gpu.deviceId != DEVICE_ID then WrongDevice(index)
    else if !SupportedSubsystem(gpu) then WrongSubsystem(index)
    else if gpu.memoryBytes < GIB20 - MEMORY_SLACK || gpu.memoryBytes > GIB20 + MEMORY_SLACK then WrongMemory(index)
    else Fine
  }

  /** A profile fits the hardware: enough cards, and each of the first ones sits at
      its own index and passes the clean-up filter. */
  predicate Fits(gpus: seq<Gpu>, profile: string) {
    && ProfileCount(profile) <= |gpus|
    && forall i :: 0 <= i < ProfileCount(profile) ==> gpus[i].index == i && IsSupported(gpus[i])
  }

  /** Validation refuses exactly the profiles that do not fit, and names the first
      card at fault. */
  method Validate(gpus: seq<Gpu>, profile: string) returns (r: Refusal)
    ensures r.Fine? <==> Fits(gpus, profile)
    ensures r.TooFew? <==> |gpus| < ProfileCount(profile)
    ensures !r.Fine? && !r.TooFew? ==>
      exists i :: 0 <= i < ProfileCount(profile) && r == CardRefusal(gpus[i], i)
        && forall j :: 0 <= j < i ==> CardRefusal(gpus[j], j).Fine?
  {
    var count := ProfileCount(profile);
    if |gpus| < count {
      return TooFew(count, |gpus|);
    }
    var index := 0;
    while index < count
      invariant 0 <= index <= count
      invariant forall j :: 0 <= j < index ==> CardRefusal(gpus[j], j).Fine?
    {
      var refusal := CardRefusal(gpus[index], index);
      if refusal != Fine {
        return refusal;
      }
      index := index + 1;
    }
    r := Fine;
  }
}
