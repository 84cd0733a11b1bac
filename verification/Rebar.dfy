/** The unlocking of BAR1 resizing: a transaction over device registers that writes,
    reads back, and rolls back on every error exit. */
module Rebar {
  import opened Boards
  import opened Registers

  /** Writing the old value back undoes a write, whatever bits can be written. */
  lemma WriteBack(was: bv32, value: bv32, mask: bv32)
    ensures Masked(Masked(was, value, mask), was, mask) == was
  {
  }

  lemma WriteBack16(was: bv16, value: bv16, mask: bv16)
    ensures Masked16(Masked16(was, value, mask), was, mask) == was
  {
  }

  /** Memory decoding is off, as far as it can be turned off. */
  predicate NotDecoding(command: bv16, mask: bv16) {
    command & COMMAND_MEMORY & mask == 0
  }

  lemma DecodingOff(was: bv16, mask: bv16)
    ensures NotDecoding(Masked16(was, was & !COMMAND_MEMORY, mask), mask)
  {
  }

  /** A write of a value that differs only inside `field` changes nothing outside it. */
  lemma FieldWrite(was: bv32, value: bv32, mask: bv32, field: bv32)
    requires SameOutside(value, was, field)
    ensures SameOutside(Masked(was, value, mask), was, field)
  {
  }

  // ----- layout -----

  const CYA_UNLOCK: bv32 := 0x30
  const CFG_ENABLE: bv32 := 0x8000_0000
  const CFG_SIZE: bv32 := 0xf
  const CFG_FIELDS: bv32 := 0x8000_000f

  const CTRL_BAR_IDX: bv32 := 0x7
  const CTRL_NBAR: bv32 := 0xe0
  const CTRL_BAR_SIZE: bv32 := 0x1f00
  const BAR1: bv32 := 1

  const COMMAND_MEMORY: bv16 := 0x2

  function NewCfg(cfg: bv32, selector: bv32): bv32 {
    (cfg & !CFG_SIZE) | CFG_ENABLE | selector
  }

  /** The resize function is on, with the selector in the size field. */
  predicate Enabled(cfg: bv32, selector: bv32) {
    cfg & CFG_FIELDS == CFG_ENABLE | selector
  }

  function Requested(selector: bv32): bv32 {
    selector + 6
  }

  function Resized(ctrl: bv32, selector: bv32): bv32 {
    (ctrl & !CTRL_BAR_SIZE) | (Requested(selector) << 8)
  }

  function SizeOf(ctrl: bv32): bv32 {
    (ctrl & CTRL_BAR_SIZE) >> 8
  }

  function NumberOfBars(ctrl: bv32): bv32 {
    (ctrl & CTRL_NBAR) >> 5
  }

  /** How many entries the capability declares. */
  function BarCount(ctrl: bv32): (n: nat)
    ensures n <= 7
  {
    AtMostSevenBars(ctrl);
    NumberOfBars(ctrl) as int
  }

  /** The size a selector stands for, and whether its bit is in the mask of offered sizes. */
  function BytesOf(selector: bv32): bv64
    requires 1 <= selector <= 8
  {
    1 << (selector + 26)
  }

  predicate Offered(sizes: bv32, selector: bv32)
    requires 1 <= selector <= 8
  {
    sizes & (1 << (selector + 6)) != 0
  }

  lemma NewCfgFields(cfg: bv32, selector: bv32)
    requires 1 <= selector <= 8
    ensures Enabled(NewCfg(cfg, selector), selector)
    ensures SameOutside(NewCfg(cfg, selector), cfg, CFG_FIELDS)
  {
  }

  lemma ResizedFields(ctrl: bv32, selector: bv32)
    requires 1 <= selector <= 8
    ensures SizeOf(Resized(ctrl, selector)) == Requested(selector)
    ensures SameOutside(Resized(ctrl, selector), ctrl, CTRL_BAR_SIZE)
  {
  }

  /** The encodings 7..14 stand for 128 MiB up to 16 GiB, each the double of the one before
      (section 7.8.6 of the PCI Express Base Specification 5.0). */
  lemma Encodings(selector: bv32)
    requires 1 <= selector <= 8
    ensures 7 <= Requested(selector) <= 14
    ensures 0x800_0000 <= BytesOf(selector) <= 0x4_0000_0000
    ensures selector == 1 ==> BytesOf(selector) == 0x800_0000
    ensures selector < 8 ==> BytesOf(selector + 1) == BytesOf(selector) + BytesOf(selector)
  {
  }

  lemma EnabledInside(a: bv32, b: bv32, selector: bv32)
    requires Enabled(b, selector)
    ensures SameInside(a, b, CFG_FIELDS) <==> Enabled(a, selector)
  {
  }

  lemma AtMostSevenBars(ctrl: bv32)
    ensures NumberOfBars(ctrl) as int <= 7
  {
  }

  lemma SameSize(a: bv32, b: bv32)
    ensures SameInside(a, b, CTRL_BAR_SIZE) <==> SizeOf(a) == SizeOf(b)
  {
  }

  // ----- the same in plain numbers -----

  /** The mask of offered sizes has one bit for each encoding, and a selector is offered
      exactly if the bit of the encoding it stands for is set. */
  lemma OfferedBit(e: bv32, selector: bv32)
    requires e < 32 && 1 <= selector <= 8
    ensures Offered(1 << e, selector) <==> e == Requested(selector)
  {
  }

  lemma OfferedUnion(a: bv32, b: bv32, selector: bv32)
    requires 1 <= selector <= 8
    ensures Offered(a | b, selector) <==> Offered(a, selector) || Offered(b, selector)
    ensures !Offered(0, selector)
  {
    hide Offered;
    var m := OfferedMask(selector);
    UnionBits(a, b, m);
  }

  lemma OfferedMask(selector: bv32) returns (m: bv32)
    requires 1 <= selector <= 8
    ensures forall sizes :: Offered(sizes, selector) <==> sizes & m != 0
  {
    m := 1 << (selector + 6);
  }

  lemma UnionBits(a: bv32, b: bv32, m: bv32)
    ensures (a | b) & m != 0 <==> a & m != 0 || b & m != 0
    ensures 0 & m == 0
  {
    assert (a | b) & m == (a & m) | (b & m);
    EitherBit(a & m, b & m);
  }

  lemma EitherBit(x: bv32, y: bv32)
    ensures x | y != 0 <==> x != 0 || y != 0
  {
  }

  /** Bit `e` of the mask, like encoding `e` of an entry, stands for 2^(e+20) bytes
      (section 7.8.6.2 of the PCI Express Base Specification 5.0). */
  function EncodedBytes(e: bv32): bv64
    requires e <= 43
  {
    1 << (e + 20)
  }

  lemma SelectorBytes(selector: bv32)
    requires 1 <= selector <= 8
    ensures EncodedBytes(Requested(selector)) == BytesOf(selector)
  {
  }

  /** The fields of a control entry: the BAR in the low three bits, the number of entries in
      the three bits from bit 5, the size in the five bits from bit 8. */
  lemma BarField(ctrl: bv32)
    ensures ctrl & CTRL_BAR_IDX == ctrl % 8
  {
  }

  lemma CountField(ctrl: bv32)
    ensures NumberOfBars(ctrl) == ctrl / 32 % 8
  {
  }

  lemma SizeField(ctrl: bv32)
    ensures SizeOf(ctrl) == ctrl / 256 % 32
  {
  }

  /** The top bit of the configuration enables resizing, its low four bits hold the selector. */
  lemma ConfigFields(cfg: bv32, selector: bv32)
    requires 1 <= selector <= 8
    ensures Enabled(cfg, selector) <==> cfg / 0x8000_0000 == 1 && cfg % 16 == selector
  {
  }

  /** What changes only in these fields keeps the 27 bits between them. */
  lemma ConfigRest(a: bv32, b: bv32)
    ensures SameOutside(a, b, CFG_FIELDS) <==> a % 0x8000_0000 / 16 == b % 0x8000_0000 / 16
  {
  }

  /** What changes only in the size field keeps the bits below and above it. */
  lemma EntryRest(a: bv32, b: bv32)
    ensures SameOutside(a, b, CTRL_BAR_SIZE) <==> a % 256 == b % 256 && a / 0x2000 == b / 0x2000
  {
  }

  /** Decoding is off exactly if bit 1 is clear or cannot be written. */
  lemma DecodingBit(command: bv16, mask: bv16)
    ensures NotDecoding(command, mask) <==> command / 2 % 2 == 0 || mask / 2 % 2 == 0
  {
  }

  // ----- the device -----

  /** What the rest of the kernel reports about the device: the register window, whether
      it can be mapped, the sizes offered once the registers are written, whether the
      resize capability is there, and the size now allocated for BAR1. */
  datatype Platform = Platform(
    bar0IsMemory: bool, bar0Size: int, mapWorks: bool,
    sizes: bv32, hasCapability: bool, bar1Bytes: bv64)

  const WINDOW_END := 0x0008_8000 + 0x1000

  datatype Status = Success | InvalidArgument | NoDevice | NoMemory | IoError

  /** The first BAR1 entry among those the capability declares. */
  ghost predicate IsBar1Entry(entries: seq<bv32>, e: int) {
    && |entries| == 8 && 0 <= e < BarCount(entries[0]) && entries[e] & CTRL_BAR_IDX == 1
    && forall j :: 0 <= j < e ==> entries[j] & CTRL_BAR_IDX != 1
  }

  /** What a write of the requested size leaves in an entry. */
  function Rewritten(entry: bv32, selector: bv32, mask: bv32): bv32 {
    Masked(entry, Resized(entry, selector), mask)
  }

  /** The entry lost its size although the allocation already has the requested one. */
  predicate NeedsRearm(entry: bv32, p: Platform, selector: bv32)
    requires 1 <= selector <= 8
  {
    p.bar1Bytes == BytesOf(selector) && SizeOf(entry) != Requested(selector)
  }

  /** The first BAR1 entry need not be re-armed, or takes the requested size. */
  ghost predicate Serves(entries: seq<bv32>, e: int, p: Platform, selector: bv32, mask: bv32)
    requires 1 <= selector <= 8
  {
    && IsBar1Entry(entries, e)
    && (NeedsRearm(entries[e], p, selector) ==> SizeOf(Rewritten(entries[e], selector, mask)) == Requested(selector))
  }

  ghost predicate SomeServes(entries: seq<bv32>, p: Platform, selector: bv32, mask: bv32)
    requires 1 <= selector <= 8
  {
    exists e :: Serves(entries, e, p, selector, mask)
  }

  /** The entry is the one that a re-arm writes. */
  ghost predicate Rearmed(entries: seq<bv32>, e: int, p: Platform, selector: bv32)
    requires 1 <= selector <= 8
  {
    && Offered(p.sizes, selector) && p.hasCapability
    && IsBar1Entry(entries, e) && NeedsRearm(entries[e], p, selector)
  }

  /** Of the entries, exactly the one to be re-armed was written, with the requested size. */
  ghost predicate EntriesAfter(before: seq<bv32>, after: seq<bv32>, p: Platform, selector: bv32, mask: bv32)
    requires |before| == |after| == 8 && 1 <= selector <= 8
  {
    forall e :: 0 <= e < 8 ==>
      after[e] == if Rearmed(before, e, p, selector) then Rewritten(before[e], selector, mask) else before[e]
  }

  /** A re-arm changes nothing but the size field. */
  lemma RewrittenField(entry: bv32, selector: bv32, mask: bv32)
    requires 1 <= selector <= 8
    ensures SameOutside(Rewritten(entry, selector, mask), entry, CTRL_BAR_SIZE)
  {
    hide Masked, Resized, SameOutside;
    ResizedFields(entry, selector);
    FieldWrite(entry, Resized(entry, selector), mask, CTRL_BAR_SIZE);
  }

  /** A re-arm, which is never undone, leaves the entry as it was exactly if the old and the
      requested word agree in the bits that can be written. */
  lemma RearmLeavesEntryIff(entry: bv32, selector: bv32, mask: bv32)
    requires 1 <= selector <= 8
    ensures Rewritten(entry, selector, mask) == entry <==> SameInside(entry, Resized(entry, selector), mask)
  {
    hide Masked, Resized, SameInside;
    var wanted := Resized(entry, selector);
    InsideMask(entry, wanted, mask);
    if SameInside(entry, wanted, mask) { SameWord(entry, wanted, mask); }
  }

  lemma InsideMask(was: bv32, value: bv32, mask: bv32)
    ensures SameInside(Masked(was, value, mask), value, mask)
  {
  }

  lemma SameWord(was: bv32, value: bv32, mask: bv32)
    requires SameInside(was, value, mask)
    ensures Masked(was, value, mask) == was
  {
    assert (was & !mask) | (was & mask) == was;
  }

  /** An entry of 256 MiB with one writable size bit: the re-arm to 16 GiB fails, and leaves
      the entry at 1 GiB. */
  lemma FailedRearmStays()
    ensures var entry: bv32 := 0x0801;
            var after := Rewritten(entry, 8, 0x0200);
            SizeOf(entry) == 8 && SizeOf(after) == 10 != Requested(8)
  {
    assert Resized(0x0801, 8) == 0x0e01;
    assert Masked(0x0801, 0x0e01, 0x0200) == 0x0a01;
  }

  class PciDevice {
    const id: Identity
    const cyaMask: bv32
    const cfgMask: bv32
    const commandMask: bv16
    const ctrlMask: bv32
    var cya: bv32
    var cfg: bv32
    var command: bv16
    const ctrl: array<bv32>
    var mapped: bool
    ghost var maps: nat

    constructor (id: Identity, ctrl: array<bv32>, cya: bv32, cfg: bv32, command: bv16,
        cyaMask: bv32, cfgMask: bv32, commandMask: bv16, ctrlMask: bv32)
      ensures this.ctrl == ctrl && this.id == id && !mapped && maps == 0
      ensures this.cya == cya && this.cfg == cfg && this.command == command
      ensures this.cyaMask == cyaMask && this.cfgMask == cfgMask
      ensures this.commandMask == commandMask && this.ctrlMask == ctrlMask
    {
      this.id, this.ctrl, this.mapped, this.maps := id, ctrl, false, 0;
      this.cya, this.cfg, this.command := cya, cfg, command;
      this.cyaMask, this.cfgMask, this.commandMask, this.ctrlMask := cyaMask, cfgMask, commandMask, ctrlMask;
    }

    // ----- the register window -----

    method Map(works: bool) returns (ok: bool)
      requires !mapped
      modifies this`mapped, this`maps
      ensures ok == mapped == works && maps == old(maps) + (if works then 1 else 0)
    {
      if works { mapped, maps := true, maps + 1; }
      ok := works;
    }

    method Unmap()
      requires mapped
      modifies this`mapped
      ensures !mapped
    {
      mapped := false;
    }

    method ReadWindow() returns (cyaNow: bv32, cfgNow: bv32)
      requires mapped
      ensures cyaNow == cya && cfgNow == cfg
    {
      cyaNow, cfgNow := cya, cfg;
    }

    method WriteCyaRegister(value: bv32)
      requires mapped
      modifies this`cya
      ensures cya == Masked(old(cya), value, cyaMask)
    {
      cya := Masked(cya, value, cyaMask);
    }

    method WriteCfgRegister(value: bv32)
      requires mapped
      modifies this`cfg
      ensures cfg == Masked(old(cfg), value, cfgMask)
    {
      cfg := Masked(cfg, value, cfgMask);
    }

    // ----- configuration space -----

    method WriteCommandWord(value: bv16)
      modifies this`command
      ensures command == Masked16(old(command), value, commandMask)
    {
      command := Masked16(command, value, commandMask);
    }

    /** The size of a BAR may be written only while memory decoding is off, as far as the
        device lets it be turned off. */
    method WriteControlEntry(entry: nat, value: bv32)
      requires entry < ctrl.Length
      requires NotDecoding(command, commandMask)
      modifies ctrl
      ensures ctrl[..] == old(ctrl[..])[entry := Masked(old(ctrl[entry]), value, ctrlMask)]
    {
      ctrl[entry] := Masked(ctrl[entry], value, ctrlMask);
    }

    /** The common error exit: registers back in reverse order, then the mapping. */
    method RollBack(oldCfg: bv32, oldCya: bv32)
      requires mapped
      modifies this`cya, this`cfg, this`mapped
      ensures cfg == Masked(old(cfg), oldCfg, cfgMask) && cya == Masked(old(cya), oldCya, cyaMask)
      ensures !mapped
    {
      WriteCfgRegister(oldCfg);
      WriteCyaRegister(oldCya);
      Unmap();
    }

    /** The search loop over the control entries. */
    method FindBar1() returns (entry: int, found: bool)
      requires ctrl.Length == 8
      ensures found ==> IsBar1Entry(ctrl[..], entry)
      ensures !found ==> forall e :: !IsBar1Entry(ctrl[..], e)
    {
      hide BarCount;
      var nbar := BarCount(ctrl[0]);
      entry := 0;
      while entry < nbar
        invariant 0 <= entry <= nbar <= 7
        invariant forall j :: 0 <= j < entry ==> ctrl[j] & CTRL_BAR_IDX != BAR1
      {
        if ctrl[entry] & CTRL_BAR_IDX == BAR1 { return entry, true; }
        entry := entry + 1;
      }
      found := false;
    }

    /** Re-arms one control entry with memory decoding off, and restores the command word. */
    method Rearm(entry: int, selector: bv32) returns (ok: bool)
      requires ctrl.Length == 8 && 0 <= entry < 8 && 1 <= selector <= 8
      modifies this`command, ctrl
      ensures command == old(command)
      ensures ctrl[..] == old(ctrl[..])[entry := Rewritten(old(ctrl[entry]), selector, ctrlMask)]
      ensures ok <==> SizeOf(Rewritten(old(ctrl[entry]), selector, ctrlMask)) == Requested(selector)
    {
      hide Masked, Masked16, Resized, SizeOf, Requested, SameInside, SameOutside, NotDecoding;
      ghost var was := ctrl[entry];
      var saved := command;
      WriteCommandWord(saved & !COMMAND_MEMORY);
      DecodingOff(saved, commandMask);
      var wanted := Resized(ctrl[entry], selector);
      WriteControlEntry(entry, wanted);
      var after := ctrl[entry];
      WriteCommandWord(saved);
      WriteBack16(saved, saved & !COMMAND_MEMORY, commandMask);
      ResizedFields(was, selector);
      SameSize(after, wanted);
      ok := SameInside(after, wanted, CTRL_BAR_SIZE);
    }

    /** The part after the configuration was read back: the offered sizes, the capability,
        the BAR1 entry, and the re-arm if it is needed. */
    method SelectEntry(p: Platform, selector: bv32) returns (ok: bool)
      requires ctrl.Length == 8 && 1 <= selector <= 8
      modifies this`command, ctrl
      ensures command == old(command)
      ensures EntriesAfter(old(ctrl[..]), ctrl[..], p, selector, ctrlMask)
      ensures ok <==>
        Offered(p.sizes, selector) && p.hasCapability && SomeServes(old(ctrl[..]), p, selector, ctrlMask)
    {
      hide SizeOf, Requested, Rewritten, BytesOf, Offered, BarCount;
      if !Offered(p.sizes, selector) { return false; }
      if !p.hasCapability { return false; }
      var entry, found := FindBar1();
      if !found { return false; }
      ok := true;
      ghost var before := ctrl[..];
      if p.bar1Bytes == BytesOf(selector) && SizeOf(ctrl[entry]) != Requested(selector) {
        ok := Rearm(entry, selector);
      }
      assert ok <==> Serves(before, entry, p, selector, ctrlMask);
    }

    /** The configuration register accepts the enable bit and the selector. */
    predicate CfgTakes(selector: bv32)
      reads this
    {
      Enabled(Masked(cfg, NewCfg(cfg, selector), cfgMask), selector)
    }

    /** The call asks for something, and the window can be mapped. */
    predicate Mappable(p: Platform, selector: bv32) {
      IsCmp50(id) && 1 <= selector <= 8 && p.bar0IsMemory && p.bar0Size >= 0x8_9000 && p.mapWorks
    }

    /** The whole transaction. */
    method UnlockBar1(p: Platform, selector: bv32) returns (r: Status)
      requires ctrl.Length == 8 && !mapped
      modifies this, ctrl
      ensures !IsCmp50(id) || selector == 0 ==>
        r == Success && Untouched(old(cya), old(cfg), old(ctrl[..])) && maps == old(maps)
      // every exit: the command word is as before, and a mapping is released
      ensures command == old(command)
      ensures !mapped && maps == old(maps) + (if Mappable(p, selector) then 1 else 0)
      // every error exit: the unlock registers are as before
      ensures r != Success ==> cya == old(cya) && cfg == old(cfg)
      // which error it is
      ensures r == InvalidArgument <==> IsCmp50(id) && selector > 8
      ensures r == NoDevice <==>
        IsCmp50(id) && 1 <= selector <= 8 && (!p.bar0IsMemory || p.bar0Size < 0x8_9000)
      ensures r == NoMemory <==>
        IsCmp50(id) && 1 <= selector <= 8 && p.bar0IsMemory && p.bar0Size >= 0x8_9000 && !p.mapWorks
      ensures r == IoError ==> Mappable(p, selector)
      // success: of the configuration, only the size field and the enable bit changed
      ensures r == Success && IsCmp50(id) && selector != 0 ==>
        && Mappable(p, selector)
        && SameOutside(cfg, old(cfg), CFG_FIELDS) && Enabled(cfg, selector)
        && cya == Masked(old(cya), 0x30, cyaMask)
      // it succeeds exactly if the state before the call allows it: the configuration takes
      // the selector, the size is offered, and the BAR1 entry has or takes the size it needs
      ensures Mappable(p, selector) ==>
        (r == Success <==>
           && old(CfgTakes(selector)) && Offered(p.sizes, selector) && p.hasCapability
           && SomeServes(old(ctrl[..]), p, selector, ctrlMask))
      // of the control entries, exactly the one to be re-armed is written
      ensures if Mappable(p, selector) && old(CfgTakes(selector))
              then EntriesAfter(old(ctrl[..]), ctrl[..], p, selector, ctrlMask)
              else ctrl[..] == old(ctrl[..])
    {
      hide Masked, NewCfg, SomeServes, EntriesAfter, BytesOf, Offered, SameInside, SameOutside, Enabled, BarCount;
      if !IsCmp50(id) || selector == 0 { return Success; }
      if selector > 8 { return InvalidArgument; }
      if !p.bar0IsMemory || p.bar0Size < WINDOW_END { return NoDevice; }
      var ok := Map(p.mapWorks);
      if !ok { return NoMemory; }
      var oldCya, oldCfg := ReadWindow();
      var newCfg := NewCfg(oldCfg, selector);
      NewCfgFields(oldCfg, selector);
      WriteCyaRegister(CYA_UNLOCK);
      WriteCfgRegister(newCfg);
      WriteBack(oldCfg, newCfg, cfgMask);
      WriteBack(oldCya, CYA_UNLOCK, cyaMask);
      FieldWrite(oldCfg, newCfg, cfgMask, CFG_FIELDS);
      var _, readCfg := ReadWindow();
      EnabledInside(readCfg, newCfg, selector);
      if !SameInside(readCfg, newCfg, CFG_FIELDS) {
        RollBack(oldCfg, oldCya);
        return IoError;
      }
      assert ctrl[..] == old(ctrl[..]);
      var selected := SelectEntry(p, selector);
      ghost var entries := ctrl[..];
      if !selected {
        RollBack(oldCfg, oldCya);
        assert ctrl[..] == entries;
        return IoError;
      }
      Unmap();
      r := Success;
    }

    ghost predicate Untouched(cya0: bv32, cfg0: bv32, ctrl0: seq<bv32>)
      reads this, ctrl
    {
      cya == cya0 && cfg == cfg0 && ctrl[..] == ctrl0
    }
  }
}
