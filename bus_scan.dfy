/** PciScanBus: the depth-first walk that gives every bridge below a bus its secondary
    and subordinate bus numbers, threading the next-bus counter (*SubBusNumber) and the
    reserved hot-plug range (*PaddedBusRange) through the recursion. */
module BusScan {
  import opened EfiStatus

  /** A UINT8 bus number or counter. */
  type Byte = x: nat | x < 256

  /** PCI_MAX_DEVICE and PCI_MAX_FUNC. */
  const MaxDevice: nat := 31
  const MaxFunc: nat := 7

  /** The bus-number registers of a Type 1 header (section 3.2 of the PCI-to-PCI Bridge
      Architecture Specification, revision 1.2): the 16-bit pair primary/secondary at
      0x18 and the subordinate bus number at 0x1A. */
  const PrimaryBusRegister: nat := 0x18
  const SubordinateBusRegister: nat := 0x1A

  /** EfiPciWidthUint8 and EfiPciWidthUint16. */
  const Width8: nat := 0
  const Width16: nat := 1

  /** IS_PCI_BRIDGE, IS_CARDBUS_BRIDGE, or neither. */
  datatype Kind = Endpoint | PciBridge | CardBusBridge

  /** The hot-plug platform's answer for a registered root hot-plug bus: the status of
      GetResourcePadding, the status of PciGetBusRange and its 16-bit BusRange, whether
      Attributes is EfiPaddingPciRootBridge, and the ENABLED and INITIALIZED bits of
      State. */
  datatype Padding = Padding(query: Status, decode: Status, busRange: nat, rootBridgePadding: bool,
                             enabled: bool, initialized: bool)

  /** A function PciDevicePresent finds: its header kind, the multi-function bit of its
      header, what PciSearchDevice returns for it, the padding answer when
      IsRootPciHotPlugBus holds for it, and the bus behind it when it is a bridge. */
  datatype Function = Function(kind: Kind, multiFunc: bool, search: Status, hotPlugBus: Option<Padding>,
                               below: Bus)

  /** The functions of one bus by slot Device * 8 + Func. A slot past the end of the
      sequence, or None, is one where PciDevicePresent fails. */
  datatype Bus = Bus(slots: seq<Option<Function>>)

  /** FeaturePcdGet (PcdPciBusHotplugDeviceSupport), and whether gPciHotPlugInit is set. */
  datatype Platform = Platform(hotPlugSupport: bool, hotPlugInit: bool)

  /** One register write the walk makes through PciRootBridgeIoWrite. */
  datatype BridgeWrite = BridgeWrite(bus: Byte, dev: nat, func: nat, reg: nat, width: nat, value: nat)

  /** *SubBusNumber, *PaddedBusRange, the register writes made so far, and whether any
      8-bit counter update so far has wrapped past 255. */
  datatype Counters = Counters(sub: Byte, padded: Byte, writes: seq<BridgeWrite>, wrapped: bool)

  /** A status and the counters it leaves behind. */
  datatype Scan = Scan(status: Status, c: Counters)

  /** The function at a slot. */
  function Slot(b: Bus, dev: nat, func: nat): Option<Function>
  {
    var i := dev * 8 + func;
    if i < |b.slots| then b.slots[i] else None
  }

  /** `(SecondBus << 8) | StartBusNumber`: the 16-bit primary/secondary register value. */
  function BusPair(secondary: Byte, primary: Byte): nat
  {
    secondary * 256 + primary
  }

  /** The number the next bridge's secondary bus follows: *SubBusNumber, or
      *PaddedBusRange when *SubBusNumber is 0. */
  function Base(c: Counters): Byte
  {
    if c.sub == 0 then c.padded else c.sub
  }

  /** The padding answer PciScanBus acts on: only with hot-plug support, a hot-plug
      init protocol and a registered hot-plug bus. */
  function PaddingOf(p: Platform, fn: Function): Option<Padding>
  {
    if p.hotPlugSupport && p.hotPlugInit then fn.hotPlugBus else None
  }

  /** Whether the padded range is set aside in *PaddedBusRange rather than consumed now:
      Attributes is EfiPaddingPciRootBridge and State is ENABLED and INITIALIZED. */
  predicate Reserves(pad: Padding)
  {
    pad.rootBridgePadding && pad.enabled && pad.initialized
  }

  /** After a bridge's bus has been scanned: the low byte of BusRange is added to
      *PaddedBusRange when the range is reserved, and to *SubBusNumber otherwise. */
  function AddPadding(pad: Option<Padding>, c: Counters): (d: Counters)
    ensures d.writes == c.writes
  {
    if pad.None? then c
    else
      var range := pad.value.busRange % 256;
      if Reserves(pad.value) then c.(padded := (range + c.padded) % 256, wrapped := c.wrapped || range + c.padded >= 256)
      else c.(sub := (range + c.sub) % 256, wrapped := c.wrapped || range + c.sub >= 256)
  }

  /** The counters once a bridge has its secondary bus: the number after Base(c),
      with *PaddedBusRange cleared when it was the base, and the primary/secondary
      register written. */
  function Assign(start: Byte, dev: nat, func: nat, c: Counters): (d: Counters)
  {
    var base := Base(c);
    var sec: Byte := (base + 1) % 256;
    var w0 := BridgeWrite(start, dev, func, PrimaryBusRegister, Width16, BusPair(sec, start));
    Counters(sec, if c.sub == 0 then 0 else c.padded, c.writes + [w0], c.wrapped || base + 1 >= 256)
  }

  /** The counters once a bridge's bus has been scanned: the padding added and the
      subordinate bus number written. */
  function Close(pad: Option<Padding>, start: Byte, dev: nat, func: nat, c: Counters): (d: Counters)
  {
    var c2 := AddPadding(pad, c);
    c2.(writes := c2.writes + [BridgeWrite(start, dev, func, SubordinateBusRegister, Width8, c2.sub)])
  }

  /** The bridge handling of PciScanBus for the function at (start, dev, func). */
  function ScanFunction(p: Platform, start: Byte, dev: nat, func: nat, fn: Function, c: Counters): (r: Scan)
    decreases fn, 0, 0
  {
    if fn.kind == Endpoint then Scan(Success, c)
    else if !p.hotPlugSupport && fn.search != Success then Scan(fn.search, c)
    else
      var pad := PaddingOf(p, fn);
      if pad.Some? && pad.value.query != Success then Scan(pad.value.query, c)
      else if pad.Some? && pad.value.decode != Success then Scan(pad.value.decode, c)
      else
        var c1 := Assign(start, dev, func, c);
        var r := if fn.kind == PciBridge then
                   var w1 := BridgeWrite(start, dev, func, SubordinateBusRegister, Width8, 0xFF);
                   ScanBus(p, fn.below, c1.sub, c1.(writes := c1.writes + [w1]))
                 else Scan(Success, c1);
        if r.status != Success then r
        else Scan(Success, Close(pad, start, dev, func, r.c))
  }

  /** The device and function loops of PciScanBus from (dev, func) on; func 8 means the
      device is finished. A missing function 0 skips the device; a function 0 that is
      not multi-function skips functions 1 to 7; the first failure ends the scan. */
  function ScanSlots(p: Platform, b: Bus, start: Byte, dev: nat, func: nat, c: Counters): (r: Scan)
    requires dev <= MaxDevice + 1 && func <= MaxFunc + 1
    decreases b, 1, (MaxDevice + 1 - dev) * 9 + (MaxFunc + 1 - func)
  {
    if dev > MaxDevice then Scan(Success, c)
    else if func > MaxFunc then ScanSlots(p, b, start, dev + 1, 0, c)
    else
      var i := dev * 8 + func;
      if i >= |b.slots| || b.slots[i].None? then
        ScanSlots(p, b, start, dev, if func == 0 then MaxFunc + 1 else func + 1, c)
      else
        var fn := b.slots[i].value;
        var r := ScanFunction(p, start, dev, func, fn, c);
        if r.status != Success then r
        else ScanSlots(p, b, start, dev, if func == 0 && !fn.multiFunc then MaxFunc + 1 else func + 1, r.c)
  }

  /** PciScanBus (Bridge, StartBusNumber, SubBusNumber, PaddedBusRange). */
  function ScanBus(p: Platform, b: Bus, start: Byte, c: Counters): (r: Scan)
    decreases b, 2, 0
  {
    ScanSlots(p, b, start, 0, 0, c)
  }

  // The numbering PciScanBus hands out

  /** The secondary bus numbers the primary/secondary register writes in ws assign, in
      order. */
  function Secondaries(ws: seq<BridgeWrite>): (s: seq<nat>)
    ensures |s| <= |ws|
  {
    if |ws| == 0 then []
    else (if ws[0].reg == PrimaryBusRegister then [ws[0].value / 256] else []) + Secondaries(ws[1..])
  }

  lemma {:induction false} SecondariesAppend(a: seq<BridgeWrite>, b: seq<BridgeWrite>)
    ensures Secondaries(a + b) == Secondaries(a) + Secondaries(b)
  {
    if |a| > 0 {
      assert (a + b)[1..] == a[1..] + b;
      SecondariesAppend(a[1..], b);
    } else {
      assert a + b == b;
    }
  }

  predicate Increasing(s: seq<nat>)
  {
    forall i, j :: 0 <= i < j < |s| ==> s[i] < s[j]
  }

  predicate Within(s: seq<nat>, lo: nat, hi: nat)
  {
    forall k :: 0 <= k < |s| ==> lo < s[k] <= hi
  }

  /** What a stretch of the walk from c to d preserves while no counter has wrapped:
      the writes only grow, and the secondary bus numbers assigned on the way are
      strictly increasing, above the base the stretch started from and no higher than
      the base it ends with; a positive *SubBusNumber stays positive. */
  ghost predicate Fresh(c: Counters, d: Counters)
  {
    |c.writes| <= |d.writes| && d.writes[..|c.writes|] == c.writes && (c.wrapped ==> d.wrapped) &&
    (!d.wrapped ==>
       var n := Secondaries(d.writes[|c.writes|..]);
       Increasing(n) && Within(n, Base(c), Base(d)) && Base(c) <= Base(d) &&
       (c.sub > 0 || |n| > 0 ==> d.sub > 0))
  }

  lemma FreshSame(c: Counters)
    ensures Fresh(c, c)
  {
    assert c.writes[|c.writes|..] == [];
  }

  lemma {:induction false} FreshTrans(c1: Counters, c2: Counters, c3: Counters)
    requires Fresh(c1, c2) && Fresh(c2, c3)
    ensures Fresh(c1, c3)
  {
    WritesTrans(c1.writes, c2.writes, c3.writes);
    SecondariesAppend(c2.writes[|c1.writes|..], c3.writes[|c2.writes|..]);
    if !c3.wrapped {
      IncreasingJoin(Secondaries(c2.writes[|c1.writes|..]), Secondaries(c3.writes[|c2.writes|..]), Base(c1), Base(c2), Base(c3));
    }
  }

  lemma WritesTrans(w1: seq<BridgeWrite>, w2: seq<BridgeWrite>, w3: seq<BridgeWrite>)
    requires |w1| <= |w2| <= |w3| && w2[..|w1|] == w1 && w3[..|w2|] == w2
    ensures w3[..|w1|] == w1 && w3[|w1|..] == w2[|w1|..] + w3[|w2|..]
  {
    assert w3[..|w1|] == w3[..|w2|][..|w1|];
    assert w3 == w2 + w3[|w2|..];
  }

  /** Two increasing runs of numbers, the first in (lo, mid] and the second in
      (mid, hi], make one increasing run in (lo, hi]. */
  lemma IncreasingJoin(n12: seq<nat>, n23: seq<nat>, lo: nat, mid: nat, hi: nat)
    requires Increasing(n12) && Within(n12, lo, mid) && Increasing(n23) && Within(n23, mid, hi) && lo <= mid <= hi
    ensures Increasing(n12 + n23) && Within(n12 + n23, lo, hi)
  {
    var n := n12 + n23;
    forall i, j | 0 <= i < j < |n|
      ensures n[i] < n[j]
    {
      if j < |n12| {
      } else if i < |n12| {
        assert n12[i] <= mid < n23[j - |n12|];
      } else {
        assert n23[i - |n12|] < n23[j - |n12|];
      }
    }
    forall k | 0 <= k < |n|
      ensures lo < n[k] <= hi
    {
      if k < |n12| {
        assert n[k] == n12[k];
      } else {
        assert n[k] == n23[k - |n12|];
      }
    }
  }

  /** A register write other than the primary/secondary pair assigns no bus number. */
  lemma FreshWrite(c: Counters, w: BridgeWrite)
    requires w.reg != PrimaryBusRegister
    ensures Fresh(c, c.(writes := c.writes + [w]))
  {
    var d := c.(writes := c.writes + [w]);
    assert d.writes[..|c.writes|] == c.writes;
    assert d.writes[|c.writes|..] == [w];
    assert Secondaries([w]) == Secondaries([w][1..]);
  }

  /** Taking the next bus number assigns exactly the number one above the base. */
  lemma AssignFresh(start: Byte, dev: nat, func: nat, c: Counters)
    ensures var d := Assign(start, dev, func, c);
            Fresh(c, d) && (!d.wrapped ==> d.sub == Base(c) + 1 && Secondaries(d.writes[|c.writes|..]) == [Base(c) + 1])
  {
    var d := Assign(start, dev, func, c);
    var w0 := d.writes[|c.writes|];
    assert d.writes[..|c.writes|] == c.writes;
    assert d.writes[|c.writes|..] == [w0];
    assert Secondaries([w0]) == [w0.value / 256] + Secondaries([w0][1..]);
    assert w0.value / 256 == d.sub;
  }

  /** Adding the padding and writing the subordinate register move the base only up
      while no counter wraps, once *SubBusNumber is positive. */
  lemma CloseFresh(pad: Option<Padding>, start: Byte, dev: nat, func: nat, c: Counters)
    requires c.sub > 0 || Close(pad, start, dev, func, c).wrapped
    ensures var d := Close(pad, start, dev, func, c);
            Fresh(c, d) && (!d.wrapped ==> c.sub <= d.sub)
  {
    var d := Close(pad, start, dev, func, c);
    var w2 := d.writes[|c.writes|];
    assert d.writes[..|c.writes|] == c.writes;
    assert d.writes[|c.writes|..] == [w2];
    assert Secondaries([w2]) == Secondaries([w2][1..]);
  }

  /** A bridge's stretch of the walk: the number after the base, then (for a PCI-to-PCI
      bridge) the 0xFF subordinate write and the walk of its bus from c1w to rc, then
      the padding and the subordinate write. */
  lemma BridgeFresh(pad: Option<Padding>, start: Byte, dev: nat, func: nat, child: bool, c: Counters, rc: Counters)
    requires var c1 := Assign(start, dev, func, c);
             if child then Fresh(c1.(writes := c1.writes + [BridgeWrite(start, dev, func, SubordinateBusRegister, Width8, 0xFF)]), rc)
             else rc == c1
    ensures Fresh(c, rc) && Fresh(c, Close(pad, start, dev, func, rc))
  {
    var c1 := Assign(start, dev, func, c);
    AssignFresh(start, dev, func, c);
    if child {
      var w1 := BridgeWrite(start, dev, func, SubordinateBusRegister, Width8, 0xFF);
      FreshWrite(c1, w1);
      FreshTrans(c, c1, c1.(writes := c1.writes + [w1]));
      FreshTrans(c, c1.(writes := c1.writes + [w1]), rc);
    } else {
      FreshSame(c1);
    }
    CloseFresh(pad, start, dev, func, rc);
    FreshTrans(c, rc, Close(pad, start, dev, func, rc));
  }

  /** The bridge handling keeps the numbering fresh: a bridge takes the number after
      the base, and every bus behind it is numbered above that. */
  lemma {:induction false} ScanFunctionFresh(p: Platform, start: Byte, dev: nat, func: nat, fn: Function, c: Counters)
    ensures Fresh(c, ScanFunction(p, start, dev, func, fn, c).c)
    decreases fn, 0, 0
  {
    var pad := PaddingOf(p, fn);
    if fn.kind == Endpoint || (!p.hotPlugSupport && fn.search != Success) ||
       (pad.Some? && (pad.value.query != Success || pad.value.decode != Success)) {
      FreshSame(c);
    } else {
      var c1 := Assign(start, dev, func, c);
      if fn.kind == PciBridge {
        var c1w := c1.(writes := c1.writes + [BridgeWrite(start, dev, func, SubordinateBusRegister, Width8, 0xFF)]);
        ScanBusFresh(p, fn.below, c1.sub, c1w);
        BridgeFresh(pad, start, dev, func, true, c, ScanBus(p, fn.below, c1.sub, c1w).c);
      } else {
        BridgeFresh(pad, start, dev, func, false, c, c1);
      }
    }
  }

  lemma {:induction false} ScanSlotsFresh(p: Platform, b: Bus, start: Byte, dev: nat, func: nat, c: Counters)
    requires dev <= MaxDevice + 1 && func <= MaxFunc + 1
    ensures Fresh(c, ScanSlots(p, b, start, dev, func, c).c)
    decreases b, 1, (MaxDevice + 1 - dev) * 9 + (MaxFunc + 1 - func)
  {
    if dev > MaxDevice {
      FreshSame(c);
    } else if func > MaxFunc {
      ScanSlotsFresh(p, b, start, dev + 1, 0, c);
    } else {
      var i := dev * 8 + func;
      if i >= |b.slots| || b.slots[i].None? {
        ScanSlotsFresh(p, b, start, dev, if func == 0 then MaxFunc + 1 else func + 1, c);
      } else {
        var fn := b.slots[i].value;
        var r := ScanFunction(p, start, dev, func, fn, c);
        ScanFunctionFresh(p, start, dev, func, fn, c);
        if r.status == Success {
          var next := if func == 0 && !fn.multiFunc then MaxFunc + 1 else func + 1;
          ScanSlotsFresh(p, b, start, dev, next, r.c);
          FreshTrans(c, r.c, ScanSlots(p, b, start, dev, next, r.c).c);
        }
      }
    }
  }

  /** PciScanBus, whatever it returns, hands out secondary bus numbers that are
      strictly increasing and lie above the counters it was given and no higher than
      the counters it leaves, as long as no 8-bit counter wraps. */
  lemma {:induction false} ScanBusFresh(p: Platform, b: Bus, start: Byte, c: Counters)
    ensures Fresh(c, ScanBus(p, b, start, c).c)
    decreases b, 2, 0
  {
    ScanSlotsFresh(p, b, start, 0, 0, c);
  }

  /** The register window of one PCI-to-PCI bridge, while no counter wraps: the
      bridge's first write sets its secondary bus to the number after the base and its
      primary bus to the bus being scanned, the second sets its subordinate bus to 0xFF
      for the duration of the scan behind it, and its last write sets the subordinate
      bus to the final *SubBusNumber; every bus numbered behind the bridge lies above
      its secondary bus and no higher than that subordinate bus, and the secondary bus
      is itself no higher than the subordinate bus, even with nothing behind it. */
  lemma BridgeWindow(p: Platform, start: Byte, dev: nat, func: nat, fn: Function, c: Counters)
    requires fn.kind == PciBridge
    ensures var r := ScanFunction(p, start, dev, func, fn, c);
            var n := |c.writes|;
            r.status == Success && !r.c.wrapped ==>
              |r.c.writes| >= n + 3 &&
              r.c.writes[n] == BridgeWrite(start, dev, func, PrimaryBusRegister, Width16, (Base(c) + 1) * 256 + start) &&
              r.c.writes[n + 1] == BridgeWrite(start, dev, func, SubordinateBusRegister, Width8, 0xFF) &&
              r.c.writes[|r.c.writes| - 1] == BridgeWrite(start, dev, func, SubordinateBusRegister, Width8, r.c.sub) &&
              Base(c) + 1 <= r.c.sub &&
              Within(Secondaries(r.c.writes[n + 2..|r.c.writes| - 1]), Base(c) + 1, r.c.sub)
  {
    var r := ScanFunction(p, start, dev, func, fn, c);
    var pad := PaddingOf(p, fn);
    if r.status == Success && !r.c.wrapped {
      var c1 := Assign(start, dev, func, c);
      var c1w := c1.(writes := c1.writes + [BridgeWrite(start, dev, func, SubordinateBusRegister, Width8, 0xFF)]);
      var rc := ScanBus(p, fn.below, c1.sub, c1w).c;
      assert r.c == Close(pad, start, dev, func, rc);
      ScanBusFresh(p, fn.below, c1.sub, c1w);
      CloseFresh(pad, start, dev, func, rc);
      AssignFresh(start, dev, func, c);
      WindowWrites(c.writes, c1w.writes, rc.writes, r.c.writes);
    }
  }

  /** The slicing behind BridgeWindow: the writes of the scan behind the bridge are
      those between its two opening writes and its closing write. */
  lemma WindowWrites(w: seq<BridgeWrite>, w1: seq<BridgeWrite>, wc: seq<BridgeWrite>, wr: seq<BridgeWrite>)
    requires |w1| == |w| + 2 && w1[..|w|] == w
    requires |w1| <= |wc| && wc[..|w1|] == w1
    requires |wr| == |wc| + 1 && wr[..|wc|] == wc
    ensures wr[|w|] == w1[|w|] && wr[|w| + 1] == w1[|w| + 1]
    ensures wr[|w| + 2..|wr| - 1] == wc[|w1|..]
  {
    assert wr[|w|] == wc[|w|] == w1[|w|];
    assert wr[|w| + 1] == wc[|w| + 1] == w1[|w| + 1];
  }

  /** Buses b and b2 hold the same functions everywhere except functions 1 to 7 of
      device dev. */
  ghost predicate AgreeOutside(b: Bus, b2: Bus, dev: nat)
  {
    forall d: nat, f: nat :: d <= MaxDevice && f <= MaxFunc && (d != dev || f == 0) ==> Slot(b, d, f) == Slot(b2, d, f)
  }

  /** Function 0 of the device is absent, or present and not multi-function. */
  predicate SingleFunction(b: Bus, dev: nat)
  {
    Slot(b, dev, 0).None? || !Slot(b, dev, 0).value.multiFunc
  }

  lemma {:induction false} SkipSlots(p: Platform, b: Bus, b2: Bus, start: Byte, dev: nat, d: nat, f: nat, c: Counters)
    requires AgreeOutside(b, b2, dev) && SingleFunction(b, dev)
    requires d <= MaxDevice + 1 && f <= MaxFunc + 1 && !(d == dev && 0 < f <= MaxFunc)
    ensures ScanSlots(p, b, start, d, f, c) == ScanSlots(p, b2, start, d, f, c)
    decreases (MaxDevice + 1 - d) * 9 + (MaxFunc + 1 - f)
  {
    if d <= MaxDevice {
      if f > MaxFunc {
        SkipSlots(p, b, b2, start, dev, d + 1, 0, c);
      } else {
        var i := d * 8 + f;
        assert Slot(b, d, f) == Slot(b2, d, f);
        if Slot(b, d, f).None? {
          SkipSlots(p, b, b2, start, dev, d, if f == 0 then MaxFunc + 1 else f + 1, c);
        } else {
          var fn := Slot(b, d, f).value;
          var r := ScanFunction(p, start, d, f, fn, c);
          if r.status == Success {
            SkipSlots(p, b, b2, start, dev, d, if f == 0 && !fn.multiFunc then MaxFunc + 1 else f + 1, r.c);
          }
        }
      }
    }
  }

  /** When function 0 of a device is absent, or is not a multi-function device,
      PciScanBus does not look at functions 1 to 7 of that device: changing them
      changes nothing it returns or writes. */
  lemma SingleFunctionSkips(p: Platform, b: Bus, b2: Bus, start: Byte, dev: nat, c: Counters)
    requires dev <= MaxDevice && AgreeOutside(b, b2, dev) && SingleFunction(b, dev)
    ensures ScanBus(p, b, start, c) == ScanBus(p, b2, start, c)
  {
    SkipSlots(p, b, b2, start, dev, 0, 0, c);
  }

  /** The bus driver's state that PciScanBus updates: the two counters it receives by
      reference and the bridge registers it programs. */
  class BusScanner {
    const platform: Platform
    var sub: Byte
    var padded: Byte
    var writes: seq<BridgeWrite>
    ghost var wrapped: bool

    ghost function State(): Counters
      reads this
    {
      Counters(sub, padded, writes, wrapped)
    }

    constructor(platform: Platform, sub: Byte, padded: Byte)
      ensures this.platform == platform && State() == Counters(sub, padded, [], false)
    {
      this.platform := platform;
      this.sub := sub;
      this.padded := padded;
      this.writes := [];
      this.wrapped := false;
    }

    /** PciScanBus. */
    method PciScanBus(b: Bus, start: Byte) returns (status: Status)
      modifies this
      decreases b, 2
      ensures var r := ScanBus(platform, b, start, old(State()));
              status == r.status && State() == r.c
    {
      ghost var whole := ScanBus(platform, b, start, State());
      var dev: nat := 0;
      while dev <= MaxDevice
        invariant dev <= MaxDevice + 1
        invariant whole == ScanSlots(platform, b, start, dev, 0, State())
      {
        var func: nat := 0;
        while func <= MaxFunc
          invariant func <= MaxFunc + 1
          invariant whole == ScanSlots(platform, b, start, dev, func, State())
        {
          var i := dev * 8 + func;
          if i >= |b.slots| || b.slots[i].None? {
            if func == 0 {
              func := MaxFunc;
            }
            func := func + 1;
            continue;
          }
          var fn := b.slots[i].value;
          status := ScanFunctionAt(b, start, dev, func, fn);
          if status != Success {
            return;
          }
          if func == 0 && !fn.multiFunc {
            func := MaxFunc;
          }
          func := func + 1;
        }
        dev := dev + 1;
      }
      status := Success;
    }

    /** The body of PciScanBus's function loop for a function it found present. */
    method ScanFunctionAt(ghost b: Bus, start: Byte, dev: nat, func: nat, fn: Function) returns (status: Status)
      requires fn < b
      modifies this
      decreases fn, 0
      ensures var r := ScanFunction(platform, start, dev, func, fn, old(State()));
              status == r.status && State() == r.c
    {
      if fn.kind == Endpoint {
        return Success;
      }
      if !platform.hotPlugSupport && fn.search != Success {
        return fn.search;
      }
      var pad := PaddingOf(platform, fn);
      if pad.Some? && pad.value.query != Success {
        return pad.value.query;
      }
      if pad.Some? && pad.value.decode != Success {
        return pad.value.decode;
      }
      var sec := AssignBridge(start, dev, func);
      if fn.kind == PciBridge {
        writes := writes + [BridgeWrite(start, dev, func, SubordinateBusRegister, Width8, 0xFF)];
        status := PciScanBus(fn.below, sec);
        if status != Success {
          return;
        }
      }
      CloseBridge(pad, start, dev, func);
      status := Success;
    }

    /** The start of PciScanBus's bridge handling: the next bus number taken as the
        bridge's secondary bus and the primary/secondary register written. */
    method AssignBridge(start: Byte, dev: nat, func: nat) returns (sec: Byte)
      modifies this
      ensures State() == Assign(start, dev, func, old(State())) && sec == sub
    {
      if sub == 0 {
        sub := padded;
        padded := 0;
      }
      wrapped := wrapped || sub + 1 >= 256;
      sub := (sub + 1) % 256;
      sec := sub;
      writes := writes + [BridgeWrite(start, dev, func, PrimaryBusRegister, Width16, BusPair(sec, start))];
    }

    /** The end of PciScanBus's bridge handling: the padding added to one of the two
        counters and the subordinate bus number register written. */
    method CloseBridge(pad: Option<Padding>, start: Byte, dev: nat, func: nat)
      modifies this
      ensures State() == Close(pad, start, dev, func, old(State()))
    {
      if pad.Some? {
        var range := pad.value.busRange % 256;
        if Reserves(pad.value) {
          wrapped := wrapped || range + padded >= 256;
          padded := (range + padded) % 256;
        } else {
          wrapped := wrapped || range + sub >= 256;
          sub := (range + sub) % 256;
        }
      }
      writes := writes + [BridgeWrite(start, dev, func, SubordinateBusRegister, Width8, sub)];
    }
  }
}
