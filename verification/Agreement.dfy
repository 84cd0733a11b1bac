/** What the governor, the kernel routines and the boot script must agree on, although each
    has its own tables: the boards they touch, and what a profile's name says. */
module Agreement {
  import opened Boards
  import opened Cards
  import opened Decimal
  import Nvidia
  import SecondPass

  // ----- boards -----

  /** The filter of the governor in plain numbers: the device, the two subsystem words, and
      20 GiB of memory give or take half a GiB. */
  lemma SupportedNumbers(gpu: Gpu)
    ensures IsSupported(gpu) <==>
      && gpu.deviceId == 0x1e09 && gpu.subsystemId in {0x1554_10de, 0x371f_1462}
      && 20_937_965_568 <= gpu.memoryBytes <= 22_011_707_392
  {
  }

  /** A device number as the governor holds it. */
  function Number(word: bv16): (n: int)
    ensures 0 <= n < 0x1_0000
  {
    word as int
  }

  lemma SameNumber(a: bv16, b: bv16)
    ensures a == b <==> Number(a) == Number(b)
  {
    assert Number(a) as bv16 == a && Number(b) as bv16 == b;
  }

  lemma KnownNumbers()
    ensures Number(0x10de) == 0x10de && Number(0x1e09) == 0x1e09 && Number(0x1554) == 0x1554
    ensures Number(0x1462) == 0x1462 && Number(0x371f) == 0x371f
  {
  }

  /** The governor's list entry for a device. */
  ghost predicate Describes(gpu: Gpu, id: Identity) {
    gpu.deviceId == Number(id.device) && gpu.subsystemId == Number(id.subDevice) * 0x1_0000 + Number(id.subVendor)
  }

  lemma Halves(gpu: Gpu, high: int, low: int)
    requires gpu.subsystemId == high * 0x1_0000 + low && 0 <= low < 0x1_0000
    ensures gpu.subsystemId % 0x1_0000 == low && gpu.subsystemId / 0x1_0000 == high
  {
  }

  /** The kernel routines accept the boards of the governor, apart from the memory size. */
  lemma KernelAgrees(gpu: Gpu, id: Identity)
    requires Describes(gpu, id) && id.vendor == 0x10de
    ensures IsCmp50(id) <==> gpu.deviceId == DEVICE_ID && SupportedSubsystem(gpu)
  {
    hide Number;
    KnownNumbers();
    SameNumber(id.device, 0x1e09);
    SameNumber(id.subVendor, 0x10de);
    SameNumber(id.subVendor, 0x1462);
    SameNumber(id.subDevice, 0x1554);
    SameNumber(id.subDevice, 0x371f);
    Halves(gpu, Number(id.subDevice), Number(id.subVendor));
  }

  /** An enumerated card is supported exactly if the driver's combined word holds the device
      above any vendor, and subsystem and memory are right. */
  lemma EnumeratedNumbers(e: Nvidia.DeviceEntry, i: nat, d: Nvidia.MlDevice, nvs: seq<Nvidia.NvDevice>, count: nat)
    requires Nvidia.Describes(e, i, d, nvs, count)
    ensures IsSupported(e.info) <==>
      && 0x1e09_0000 <= d.pciDeviceId <= 0x1e09_ffff && d.subsystemId in {0x1554_10de, 0x371f_1462}
      && 20_937_965_568 <= d.memoryBytes <= 22_011_707_392
  {
    SupportedNumbers(e.info);
  }

  function HexDigit(d: nat): char
    requires d < 16
  {
    "0123456789abcdef"[d]
  }

  /** The last digits of a number in lower-case hexadecimal notation. */
  function Hex(n: nat, digits: nat): (s: string)
    ensures |s| == digits
  {
    if digits == 0 then "" else Hex(n / 16, digits - 1) + [HexDigit(n % 16)]
  }

  lemma SameDigit(d: nat, e: nat)
    requires d < 16 && e < 16 && HexDigit(d) == HexDigit(e)
    ensures d == e
  {
  }

  function Power16(digits: nat): nat {
    if digits == 0 then 1 else 16 * Power16(digits - 1)
  }

  /** Enough digits tell numbers apart. */
  lemma {:induction false} HexDecides(m: nat, n: nat, digits: nat)
    requires m < Power16(digits) && n < Power16(digits)
    ensures Hex(m, digits) == Hex(n, digits) <==> m == n
    decreases digits
  {
    hide HexDigit;
    if digits == 0 {
    } else if Hex(m, digits) == Hex(n, digits) {
      assert Hex(m, digits)[digits - 1] == HexDigit(m % 16) && Hex(n, digits)[digits - 1] == HexDigit(n % 16);
      SameDigit(m % 16, n % 16);
      assert Hex(m, digits)[..digits - 1] == Hex(m / 16, digits - 1);
      assert Hex(n, digits)[..digits - 1] == Hex(n / 16, digits - 1);
      HexDecides(m / 16, n / 16, digits - 1);
    }
  }

  lemma HexLast(n: nat, d: nat, digits: nat)
    requires d < 16
    ensures Hex(n * 16 + d, digits + 1) == Hex(n, digits) + [HexDigit(d)]
  {
    assert (n * 16 + d) / 16 == n && (n * 16 + d) % 16 == d;
  }

  /** Two more digits. */
  lemma HexTwo(n: nat, a: nat, b: nat, digits: nat)
    requires a < 16 && b < 16
    ensures Hex((n * 16 + a) * 16 + b, digits + 2) == Hex(n, digits) + [HexDigit(a), HexDigit(b)]
  {
    hide Hex, HexDigit;
    var m := n * 16 + a;
    HexLast(n, a, digits);
    HexLast(m, b, digits + 1);
  }

  lemma HexConstants()
    ensures Hex(0x10de, 4) == "10de" && Hex(0x1554, 4) == "1554"
    ensures Hex(0x1462, 4) == "1462" && Hex(0x371f, 4) == "371f"
  {
    hide Hex;
    assert |Hex(0, 0)| == 0;
    HexTwo(0, 1, 0, 0);
    HexTwo(0x10, 13, 14, 2);
    HexTwo(0, 1, 5, 0);
    HexTwo(0x15, 5, 4, 2);
    HexTwo(0, 1, 4, 0);
    HexTwo(0x14, 6, 2, 2);
    HexTwo(0, 3, 7, 0);
    HexTwo(0x37, 1, 15, 2);
  }

  /** The boot script accepts the printed subsystem of a card exactly if the governor does. */
  lemma ScriptAgrees(gpu: Gpu)
    ensures SupportedSubsystem(gpu) <==>
      SecondPass.SupportedSubsystem((Hex(gpu.subsystemId % 0x1_0000, 4), Hex(gpu.subsystemId / 0x1_0000, 4)))
  {
    hide Hex;
    var vendor, device := gpu.subsystemId % 0x1_0000, gpu.subsystemId / 0x1_0000;
    assert Power16(2) == 0x100 && Power16(4) == 0x1_0000;
    HexConstants();
    HexDecides(vendor, 0x10de, 4);
    HexDecides(device, 0x1554, 4);
    HexDecides(vendor, 0x1462, 4);
    HexDecides(device, 0x371f, 4);
  }

  // ----- profiles -----

  function ProfileName(count: int): string {
    "cmp50-" + Print(count) + "x20gb"
  }

  /** A profile is named after the number of cards it covers: one, two, four, six or eight. */
  lemma ProfileNames(profile: string, count: int)
    ensures profile in PROFILES ==>
      ProfileCount(profile) in {1, 2, 4, 6, 8} && profile == ProfileName(ProfileCount(profile))
    ensures count in {1, 2, 4, 6, 8} ==> ProfileName(count) in PROFILES && ProfileCount(ProfileName(count)) == count
  {
    hide Print;
    OneDigit();
    assert ProfileName(1) == "cmp50-1x20gb" && ProfileName(2) == "cmp50-2x20gb" && ProfileName(4) == "cmp50-4x20gb";
    assert ProfileName(6) == "cmp50-6x20gb" && ProfileName(8) == "cmp50-8x20gb";
  }

  lemma OneDigit()
    ensures Print(1) == "1" && Print(2) == "2" && Print(4) == "4" && Print(6) == "6" && Print(8) == "8"
  {
  }

  // ----- refusals -----

  /** What a refusal of one card says: the first of its position, device, subsystem and memory
      size that is wrong. */
  lemma RefusalNames(gpu: Gpu, index: int)
    ensures var r := CardRefusal(gpu, index);
            && (r.NotContiguous? <==> gpu.index != index)
            && (r == WrongDevice(index) <==> gpu.index == index && gpu.deviceId != 0x1e09)
            && (r == WrongSubsystem(index) <==>
                  && gpu.index == index && gpu.deviceId == 0x1e09
                  && gpu.subsystemId !in {0x1554_10de, 0x371f_1462})
            && (r == WrongMemory(index) <==>
                  && gpu.index == index && gpu.deviceId == 0x1e09
                  && gpu.subsystemId in {0x1554_10de, 0x371f_1462} && !IsSupported(gpu))
            && (r.Fine? <==> gpu.index == index && IsSupported(gpu))
  {
  }
}
