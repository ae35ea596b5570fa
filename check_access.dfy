/** PciIncompatibilityCheckRead / PciIncompatibilityCheckWrite, which split a Count-unit
    access into single units through ReadConfigData / WriteConfigData, and the four
    protocol wrappers that choose between them and the plain transport. */
module CheckedAccess {
  import opened EfiStatus
  import opened Bits
  import opened Transport
  import opened Quirks
  import opened ConfigAccess

  // ---------------------------------------------------------------------------
  // GetPciDeviceDeviceInfo through the transport
  // ---------------------------------------------------------------------------

  /** The 32-bit reads GetPciDeviceDeviceInfo makes: none with a header snapshot;
      otherwise dword 0 of the function, then dword 8 unless that read failed or found
      no device, then dword 0x2C unless the read of dword 8 failed. */
  function InfoTrace(fault: Fault, space: Space, header: Option<PciHeader>, offset: nat): (t: seq<Access>)
    ensures header.Some? ==> t == []
    ensures header.None? ==> 1 <= |t| <= 3
  {
    if header.Some? then []
    else
      var base := offset - offset % 256;
      ReadsMade(base, Outcome(fault, ReadOp, 2, base, 1, true), Dword(Span(space, base, 4)),
                Outcome(fault, ReadOp, 2, base + 8, 1, true))
  }

  /** The reads of the identification dwords at base, given the status and value of the
      first and the status of the second: a failing read, or an all-ones vendor ID, is
      the last read made. */
  function ReadsMade(base: nat, s0: Status, id: bv32, s8: Status): seq<Access>
  {
    var x0 := Access(ReadOp, 2, base, 1);
    var x8 := Access(ReadOp, 2, base + 8, 1);
    if s0 != Success || Low16(id) == 0xFFFF then [x0]
    else if s8 != Success then [x0, x8]
    else [x0, x8, Access(ReadOp, 2, base + 0x2C, 1)]
  }

  lemma InfoTraceReads(fault: Fault, space: Space, offset: nat, base: nat)
    requires base == offset - offset % 256
    ensures InfoTrace(fault, space, None, offset)
         == ReadsMade(base, Outcome(fault, ReadOp, 2, base, 1, true), Dword(Span(space, base, 4)),
                      Outcome(fault, ReadOp, 2, base + 8, 1, true))
  {
  }

  /** One `EfiPciWidthUint32` read of an identification dword. */
  method ReadDword(dev: PciConfigTransport, a: nat) returns (s: Status, v: bv32)
    modifies dev
    ensures dev.space == old(dev.space) && dev.log == old(dev.log) + [Access(ReadOp, 2, a, 1)]
    ensures s == Outcome(dev.fault, ReadOp, 2, a, 1, true)
    ensures s == Success ==> v == Dword(Span(dev.space, a, 4))
  {
    var d;
    s, d := dev.Read(2, a, 1, true);
    assert Pow2(2) == 4;
    v := if s == Success then Dword(d) else 0;
  }

  /** GetPciDeviceDeviceInfo on a transport: the identity is the one decoded from the
      registers, and the reads are InfoTrace's. */
  method ReadDeviceInfo(dev: PciConfigTransport, header: Option<PciHeader>, offset: nat)
    returns (r: Result<DeviceInfo>)
    modifies dev
    ensures dev.space == old(dev.space)
    ensures r == GetPciDeviceDeviceInfo(dev.fault, old(dev.space), header, offset)
    ensures dev.log == old(dev.log) + InfoTrace(dev.fault, old(dev.space), header, offset)
  {
    if header.Some? {
      return Ok(InfoFromHeader(header.value));
    }
    var base := offset - offset % 256;
    InfoTraceReads(dev.fault, dev.space, offset, base);
    DeviceInfoReads(dev.fault, dev.space, offset, base);
    r := ReadIdentity(dev, base);
  }

  /** The reads of the identification dwords of the function whose registers start at
      base, stopping at the first failure or at an all-ones vendor ID. */
  method ReadIdentity(dev: PciConfigTransport, base: nat) returns (r: Result<DeviceInfo>)
    modifies dev
    ensures dev.space == old(dev.space)
    ensures r == InfoFromReads(Outcome(dev.fault, ReadOp, 2, base, 1, true), Dword(Span(dev.space, base, 4)),
                               Outcome(dev.fault, ReadOp, 2, base + 8, 1, true), Dword(Span(dev.space, base + 8, 4)),
                               Outcome(dev.fault, ReadOp, 2, base + 0x2C, 1, true), Dword(Span(dev.space, base + 0x2C, 4)))
    ensures dev.log == old(dev.log) + ReadsMade(base, Outcome(dev.fault, ReadOp, 2, base, 1, true), Dword(Span(dev.space, base, 4)),
                                                Outcome(dev.fault, ReadOp, 2, base + 8, 1, true))
  {
    var s0, id := ReadDword(dev, base);
    if s0 != Success {
      return Err(s0);
    }
    if Low16(id) == 0xFFFF {
      return Err(NotFound);
    }
    r := ReadRest(dev, base, id);
    AppendAssoc(old(dev.log), [Access(ReadOp, 2, base, 1)], [Access(ReadOp, 2, base + 8, 1)]);
  }

  /** The reads of dwords 8 and 0x2C once dword 0 has shown a device. */
  method ReadRest(dev: PciConfigTransport, base: nat, id: bv32) returns (r: Result<DeviceInfo>)
    requires Low16(id) != 0xFFFF
    modifies dev
    ensures dev.space == old(dev.space)
    ensures r == InfoFromReads(Success, id,
                               Outcome(dev.fault, ReadOp, 2, base + 8, 1, true), Dword(Span(dev.space, base + 8, 4)),
                               Outcome(dev.fault, ReadOp, 2, base + 0x2C, 1, true), Dword(Span(dev.space, base + 0x2C, 4)))
    ensures Outcome(dev.fault, ReadOp, 2, base + 8, 1, true) != Success ==>
              dev.log == old(dev.log) + [Access(ReadOp, 2, base + 8, 1)]
    ensures Outcome(dev.fault, ReadOp, 2, base + 8, 1, true) == Success ==>
              dev.log == old(dev.log) + [Access(ReadOp, 2, base + 8, 1), Access(ReadOp, 2, base + 0x2C, 1)]
  {
    var s8, revision := ReadDword(dev, base + 8);
    if s8 != Success {
      return Err(s8);
    }
    var s2c, subsystem := ReadDword(dev, base + 0x2C);
    if s2c != Success {
      return Err(s2c);
    }
    r := Ok(DecodeInfo(IdDwords(id, revision, subsystem)));
  }

  // ---------------------------------------------------------------------------
  // The Count loops
  // ---------------------------------------------------------------------------

  /** `Offset + i * Size`: where unit i of a Count-unit access with units of p bytes
      starts. */
  function UnitOffset(offset: nat, p: nat, i: nat): nat
  {
    offset + i * p
  }

  /** The unit after the first is unit 0 of the rest. */
  lemma UnitOffsetNext(offset: nat, p: nat, i: nat)
    ensures UnitOffset(offset + p, p, i) == UnitOffset(offset, p, i + 1)
  {
  }

  /** count units of p bytes are one unit followed by count - 1 units. */
  lemma UnitsSplit(count: nat, p: nat)
    requires count > 0
    ensures count * p == p + (count - 1) * p
    ensures p <= count * p
  {
  }

  /** The Count loop of PciIncompatibilityCheckRead from the unit at offset on, with
      `data` already in the caller's buffer and the accesses `done` made: `read` reads
      the unit at an offset, the first failure is returned, and each unit read passes
      through `fix` on its way to the buffer; units are p bytes apart. */
  function CheckReadLoop(read: nat -> ReadResult, fix: (nat, seq<bv8>) -> seq<bv8>, p: nat, offset: nat,
                         count: nat, data: seq<bv8>, done: seq<Access>): (r: ReadResult)
    decreases count
  {
    if count == 0 then ReadResult(Success, data, done)
    else
      var rc := read(offset);
      if rc.status != Success then ReadResult(rc.status, data, done + rc.trace)
      else CheckReadLoop(read, fix, p, offset + p, count - 1, data + fix(offset, rc.data), done + rc.trace)
  }

  /** A unit of PciIncompatibilityCheckRead is read by ReadConfigData. */
  function UnitReader(fault: Fault, space: Space, widthRules: bool, access: AccessTable, info: DeviceInfo,
                      width: nat): nat -> ReadResult
  {
    (o: nat) => ReadConfig(fault, space, widthRules, access, info, width, o)
  }

  /** UpdateConfigData on a unit in the caller's buffer. It reads the 32-bit word at the
      unit; the bytes past a narrow unit are taken as zero, which cannot change the
      unit's own bytes (UpdateConfigDataIgnoresHighBits). */
  function FixUnit(values: ValueTable, info: DeviceInfo, dir: AccessType, width: nat, off: nat,
                   unit: seq<bv8>): (r: seq<bv8>)
    ensures |r| == |unit|
    ensures values(info, dir, off % 256).status != Success ==> r == unit
  {
    var u := UpdateConfigData(values, info, dir, width, off, Dword(Window(unit, 0, 4)));
    if u.status == Success && |unit| <= 4 then DwordBytes(u.word)[..|unit|] else unit
  }

  /** With the register-update bit set each unit read is fixed up as a read. */
  function UnitFixer(values: ValueTable, info: DeviceInfo, update: bool, width: nat): (nat, seq<bv8>) -> seq<bv8>
  {
    (o: nat, d: seq<bv8>) => if update then FixUnit(values, info, RegisterRead, width, o % 256, d) else d
  }

  /** PciIncompatibilityCheckRead: a missing buffer is UNSUPPORTED before anything is
      read; otherwise the device's identity is fetched (its failure returned as it is)
      and the Count loop runs with it. */
  function CheckRead(fault: Fault, space: Space, mask: SupportMask, access: AccessTable, values: ValueTable,
                     header: Option<PciHeader>, width: nat, offset: nat, count: nat, hasBuffer: bool): (r: ReadResult)
    ensures !hasBuffer ==> r.status == Unsupported && r.trace == []
  {
    if !hasBuffer then ReadResult(Unsupported, [], [])
    else
      var id := GetPciDeviceDeviceInfo(fault, space, header, offset);
      var t := InfoTrace(fault, space, header, offset);
      if id.Err? then ReadResult(id.status, [], t)
      else CheckReadLoop(UnitReader(fault, space, mask.accessWidth, access, id.value, width),
                         UnitFixer(values, id.value, mask.registerUpdate, width), Pow2(width), offset, count, [], t)
  }

  /** The Count loop of PciIncompatibilityCheckRead on a transport, after the accesses
      `done0` that brought the log to its current state. */
  method ReadUnits(dev: PciConfigTransport, widthRules: bool, access: AccessTable, values: ValueTable,
                   update: bool, info: DeviceInfo, width: nat, offset0: nat, count0: nat,
                   ghost log0: seq<Access>, ghost done0: seq<Access>)
    returns (status: Status, data: seq<bv8>)
    requires dev.log == log0 + done0
    modifies dev
    ensures dev.space == old(dev.space)
    ensures var r := CheckReadLoop(UnitReader(dev.fault, old(dev.space), widthRules, access, info, width),
                                   UnitFixer(values, info, update, width), Pow2(width), offset0, count0, [], done0);
            status == r.status && data == r.data && dev.log == log0 + r.trace
  {
    var offset: nat, count: nat := offset0, count0;
    data := [];
    ghost var done := done0;
    ghost var space := dev.space;
    ghost var read := UnitReader(dev.fault, space, widthRules, access, info, width);
    ghost var fix := UnitFixer(values, info, update, width);
    ghost var whole := CheckReadLoop(read, fix, Pow2(width), offset, count, data, done);
    while count > 0
      invariant dev.space == space
      invariant dev.log == log0 + done
      invariant whole == CheckReadLoop(read, fix, Pow2(width), offset, count, data, done)
    {
      ghost var rc := read(offset);
      var s, unit := ReadConfigData(dev, widthRules, access, info, width, offset);
      AppendAssoc(log0, done, rc.trace);
      done := done + rc.trace;
      if s != Success {
        return s, data;
      }
      if update {
        unit := FixUnit(values, info, RegisterRead, width, offset % 256, unit);
      }
      assert unit == fix(offset, rc.data);
      data := data + unit;
      offset := offset + Pow2(width);
      count := count - 1;
    }
    status := Success;
  }

  /** PciIncompatibilityCheckRead on a transport. */
  method PciIncompatibilityCheckRead(dev: PciConfigTransport, mask: SupportMask, access: AccessTable,
                                     values: ValueTable, header: Option<PciHeader>, width: nat, offset: nat,
                                     count: nat, hasBuffer: bool)
    returns (status: Status, data: seq<bv8>)
    modifies dev
    ensures dev.space == old(dev.space)
    ensures var r := CheckRead(dev.fault, old(dev.space), mask, access, values, header, width, offset, count, hasBuffer);
            status == r.status && data == r.data && dev.log == old(dev.log) + r.trace
  {
    if !hasBuffer {
      return Unsupported, [];
    }
    var id := ReadDeviceInfo(dev, header, offset);
    if id.Err? {
      return id.status, [];
    }
    status, data := ReadUnits(dev, mask.accessWidth, access, values, mask.registerUpdate, id.value, width, offset, count,
                              old(dev.log), InfoTrace(dev.fault, old(dev.space), header, offset));
  }

  /** The Count loop of PciIncompatibilityCheckWrite from the unit at offset on, with
      `rest` the caller's bytes still to write and the accesses `done` made: `write`
      writes the p bytes of a unit at an offset, and the first failure is returned. */
  function CheckWriteLoop(write: (Space, nat, seq<bv8>) -> WriteResult, p: nat, space: Space, offset: nat,
                          count: nat, rest: seq<bv8>, done: seq<Access>): (r: WriteResult)
    requires count * p <= |rest|
    decreases count
  {
    if count == 0 then WriteResult(Success, space, done)
    else
      UnitsSplit(count, p);
      var w := write(space, offset, rest[..p]);
      if w.status != Success then WriteResult(w.status, w.space, done + w.trace)
      else CheckWriteLoop(write, p, w.space, offset + p, count - 1, rest[p..], done + w.trace)
  }

  /** `Data = *(UINT8 *) Buffer` (or UINT16, UINT32): the unit zero-extended to 64 bits. */
  function WriteImage(unit: seq<bv8>): (d: Image)
    requires |unit| <= 8
    ensures d[..|unit|] == unit
  {
    unit + Zeros(8 - |unit|)
  }

  /** Data for one unit of PciIncompatibilityCheckWrite: the unit zero-extended, then
      fixed up as a write when the register-update bit is set. */
  function UnitData(fix: FixUp, update: bool, width: nat, offset: nat, unit: seq<bv8>): (d: Image)
    requires |unit| <= 8
    ensures !update ==> d[..|unit|] == unit
  {
    var image := WriteImage(unit);
    if update then fix(RegisterWrite, width, offset % 256, image) else image
  }

  /** A unit of PciIncompatibilityCheckWrite: a width other than 8, 16 or 32 bits is
      UNSUPPORTED before anything is written; otherwise the unit's data is written by
      WriteConfigData. (A unit then has at most 4 bytes, so the length test never
      decides.) */
  function UnitWriter(fault: Fault, widthRules: bool, access: AccessTable, fix: FixUp, update: bool,
                      info: DeviceInfo, width: nat): (Space, nat, seq<bv8>) -> WriteResult
  {
    (s: Space, o: nat, u: seq<bv8>) =>
      if width <= 2 && |u| <= 8 then
        WriteConfig(fault, s, widthRules, access, fix, info, width, o, UnitData(fix, update, width, o, u))
      else WriteResult(Unsupported, s, [])
  }

  /** PciIncompatibilityCheckWrite: a missing buffer is UNSUPPORTED before anything is
      accessed; otherwise the device's identity is fetched (its failure returned as it
      is) and the Count loop runs with it. */
  function CheckWrite(fault: Fault, space: Space, mask: SupportMask, access: AccessTable, values: ValueTable,
                      header: Option<PciHeader>, width: nat, offset: nat, count: nat,
                      buffer: Option<seq<bv8>>): (r: WriteResult)
    requires buffer.Some? ==> count * Pow2(width) <= |buffer.value|
    ensures buffer.None? ==> r.status == Unsupported && r.space == space && r.trace == []
    ensures width > 2 && count > 0 ==> r.status != Success && r.space == space
    ensures buffer.Some? && width > 2 && count > 0 ==>
              var id := GetPciDeviceDeviceInfo(fault, space, header, offset);
              r.status == if id.Ok? then Unsupported else id.status
  {
    if buffer.None? then WriteResult(Unsupported, space, [])
    else
      var id := GetPciDeviceDeviceInfo(fault, space, header, offset);
      var t := InfoTrace(fault, space, header, offset);
      if id.Err? then WriteResult(id.status, space, t)
      else CheckWriteLoop(UnitWriter(fault, mask.accessWidth, access, FixUpOf(values, id.value), mask.registerUpdate,
                                     id.value, width),
                          Pow2(width), space, offset, count, buffer.value, t)
  }

  /** One unit of PciIncompatibilityCheckWrite on a transport: the writes it makes and
      the configuration space after them are UnitWriter's. */
  method WriteCheckedUnit(dev: PciConfigTransport, widthRules: bool, access: AccessTable, fix: FixUp,
                   update: bool, info: DeviceInfo, width: nat, offset: nat, unit: seq<bv8>)
    returns (status: Status)
    modifies dev
    ensures var w := UnitWriter(dev.fault, widthRules, access, fix, update, info, width)(old(dev.space), offset, unit);
            status == w.status && dev.space == w.space && dev.log == old(dev.log) + w.trace
  {
    if width > 2 || |unit| > 8 {
      return Unsupported;
    }
    var data := WriteImage(unit);
    if update {
      data := fix(RegisterWrite, width, offset % 256, data);
    }
    status := WriteConfigData(dev, widthRules, access, fix, info, width, offset, data);
  }

  /** The Count loop of PciIncompatibilityCheckWrite on a transport, after the accesses
      `done0` that brought the log to its current state. */
  method WriteUnits(dev: PciConfigTransport, widthRules: bool, access: AccessTable, fix: FixUp,
                    update: bool, info: DeviceInfo, width: nat, offset0: nat, count0: nat, buffer: seq<bv8>,
                    ghost log0: seq<Access>, ghost done0: seq<Access>)
    returns (status: Status)
    requires count0 * Pow2(width) <= |buffer|
    requires dev.log == log0 + done0
    modifies dev
    ensures var r := CheckWriteLoop(UnitWriter(dev.fault, widthRules, access, fix, update, info, width),
                                    Pow2(width), old(dev.space), offset0, count0, buffer, done0);
            status == r.status && dev.space == r.space && dev.log == log0 + r.trace
  {
    var offset: nat, count: nat, rest := offset0, count0, buffer;
    ghost var done := done0;
    ghost var write := UnitWriter(dev.fault, widthRules, access, fix, update, info, width);
    ghost var whole := CheckWriteLoop(write, Pow2(width), dev.space, offset, count, rest, done);
    while count > 0
      invariant count * Pow2(width) <= |rest|
      invariant dev.log == log0 + done
      invariant whole == CheckWriteLoop(write, Pow2(width), dev.space, offset, count, rest, done)
    {
      UnitsSplit(count, Pow2(width));
      var unit := rest[..Pow2(width)];
      ghost var w := write(dev.space, offset, unit);
      status := WriteCheckedUnit(dev, widthRules, access, fix, update, info, width, offset, unit);
      AppendAssoc(log0, done, w.trace);
      done := done + w.trace;
      if status != Success {
        return;
      }
      offset := offset + Pow2(width);
      count := count - 1;
      rest := rest[Pow2(width)..];
    }
    status := Success;
  }

  /** PciIncompatibilityCheckWrite on a transport. */
  method PciIncompatibilityCheckWrite(dev: PciConfigTransport, mask: SupportMask, access: AccessTable,
                                      values: ValueTable, header: Option<PciHeader>, width: nat, offset: nat,
                                      count: nat, buffer: Option<seq<bv8>>)
    returns (status: Status)
    requires buffer.Some? ==> count * Pow2(width) <= |buffer.value|
    modifies dev
    ensures var r := CheckWrite(dev.fault, old(dev.space), mask, access, values, header, width, offset, count, buffer);
            status == r.status && dev.space == r.space && dev.log == old(dev.log) + r.trace
  {
    if buffer.None? {
      return Unsupported;
    }
    var id := ReadDeviceInfo(dev, header, offset);
    if id.Err? {
      return id.status;
    }
    status := WriteUnits(dev, mask.accessWidth, access, FixUpOf(values, id.value), mask.registerUpdate, id.value,
                         width, offset, count, buffer.value, old(dev.log), InfoTrace(dev.fault, old(dev.space), header, offset));
  }

  // ---------------------------------------------------------------------------
  // What the Count loops achieve
  // ---------------------------------------------------------------------------

  /** Every one of the first count units, p bytes apart from offset on, reads
      successfully. */
  ghost predicate UnitsRead(read: nat -> ReadResult, p: nat, offset: nat, count: nat)
  {
    forall i :: 0 <= i < count ==> read(UnitOffset(offset, p, i)).status == Success
  }

  /** The first count units read successfully exactly when the first does and so do
      the count - 1 after it. */
  lemma UnitsReadNext(read: nat -> ReadResult, p: nat, offset: nat, count: nat)
    requires count > 0
    ensures UnitsRead(read, p, offset, count) <==>
              read(offset).status == Success && UnitsRead(read, p, offset + p, count - 1)
  {
    var next := offset + p;
    assert UnitOffset(offset, p, 0) == offset;
    if UnitsRead(read, p, offset, count) {
      forall i | 0 <= i < count - 1
        ensures read(UnitOffset(next, p, i)).status == Success
      {
        UnitOffsetNext(offset, p, i);
      }
    }
    if read(offset).status == Success && UnitsRead(read, p, next, count - 1) {
      forall i | 0 < i < count
        ensures read(UnitOffset(offset, p, i)).status == Success
      {
        UnitOffsetNext(offset, p, i - 1);
      }
    }
  }

  /** The read loop goes through exactly when every unit read at Offset + i * 2^Width
      goes through. */
  lemma {:induction false} CheckReadLoopSucceeds(read: nat -> ReadResult, fix: (nat, seq<bv8>) -> seq<bv8>, p: nat,
                                                 offset: nat, count: nat, data: seq<bv8>, done: seq<Access>,
                                                 r: ReadResult)
    requires r == CheckReadLoop(read, fix, p, offset, count, data, done)
    ensures r.status == Success <==> UnitsRead(read, p, offset, count)
    decreases count
  {
    if count > 0 {
      UnitsReadNext(read, p, offset, count);
      var rc := read(offset);
      if rc.status == Success {
        CheckReadLoopSucceeds(read, fix, p, offset + p, count - 1, data + fix(offset, rc.data), done + rc.trace, r);
      }
    }
  }

  /** When the read loop fails, its status is that of the first unit that failed: some
      unit k failed with it and every unit before k was read. */
  lemma {:induction false} CheckReadLoopFirstFailure(read: nat -> ReadResult, fix: (nat, seq<bv8>) -> seq<bv8>,
                                                     p: nat, offset: nat, count: nat, data: seq<bv8>,
                                                     done: seq<Access>, r: ReadResult)
    requires r == CheckReadLoop(read, fix, p, offset, count, data, done)
    requires r.status != Success
    ensures exists k :: 0 <= k < count && UnitsRead(read, p, offset, k) &&
              read(UnitOffset(offset, p, k)).status == r.status
    decreases count
  {
    var rc := read(offset);
    assert UnitOffset(offset, p, 0) == offset;
    if rc.status == Success {
      var next := offset + p;
      CheckReadLoopFirstFailure(read, fix, p, next, count - 1, data + fix(offset, rc.data), done + rc.trace, r);
      var k :| 0 <= k < count - 1 && UnitsRead(read, p, next, k) && read(UnitOffset(next, p, k)).status == r.status;
      UnitsReadNext(read, p, offset, k + 1);
      UnitOffsetNext(offset, p, k);
    } else {
      assert UnitsRead(read, p, offset, 0);
    }
  }

  /** The first k units of the write loop go through, each written on the space the
      one before it left. */
  predicate UnitsWritten(write: (Space, nat, seq<bv8>) -> WriteResult, p: nat, space: Space, offset: nat,
                         rest: seq<bv8>, k: nat)
    requires k * p <= |rest|
    decreases k
  {
    k == 0 ||
    (UnitsSplit(k, p);
     var w := write(space, offset, rest[..p]);
     w.status == Success && UnitsWritten(write, p, w.space, offset + p, rest[p..], k - 1))
  }

  /** The write of unit k, made on the space the k units before it left. */
  function UnitWriteAt(write: (Space, nat, seq<bv8>) -> WriteResult, p: nat, space: Space, offset: nat,
                       rest: seq<bv8>, k: nat): WriteResult
    requires (k + 1) * p <= |rest|
    decreases k
  {
    UnitsSplit(k + 1, p);
    var w := write(space, offset, rest[..p]);
    if k == 0 then w else UnitWriteAt(write, p, w.space, offset + p, rest[p..], k - 1)
  }

  /** When the write loop fails, its status is that of the first unit that failed: some
      unit k failed with it, every unit before k was written, and the loop leaves the
      space that failing write left. */
  lemma {:induction false} CheckWriteLoopFirstFailure(write: (Space, nat, seq<bv8>) -> WriteResult, p: nat,
                                                      space: Space, offset: nat, count: nat, rest: seq<bv8>,
                                                      done: seq<Access>, r: WriteResult)
    requires count * p <= |rest|
    requires r == CheckWriteLoop(write, p, space, offset, count, rest, done)
    requires r.status != Success
    ensures exists k :: 0 <= k < count && (k + 1) * p <= |rest| && UnitsWritten(write, p, space, offset, rest, k) &&
              UnitWriteAt(write, p, space, offset, rest, k).status == r.status &&
              UnitWriteAt(write, p, space, offset, rest, k).space == r.space
    decreases count
  {
    assert count > 0;
    UnitsSplit(count, p);
    var w := write(space, offset, rest[..p]);
    UnitsSplit(1, p);
    if w.status == Success {
      CheckWriteLoopFirstFailure(write, p, w.space, offset + p, count - 1, rest[p..], done + w.trace, r);
      var k :| 0 <= k < count - 1 && (k + 1) * p <= |rest[p..]| &&
               UnitsWritten(write, p, w.space, offset + p, rest[p..], k) &&
               UnitWriteAt(write, p, w.space, offset + p, rest[p..], k).status == r.status &&
               UnitWriteAt(write, p, w.space, offset + p, rest[p..], k).space == r.space;
      UnitsSplit(k + 1, p);
      UnitsSplit(k + 2, p);
      assert UnitsWritten(write, p, space, offset, rest, k + 1);
      assert UnitWriteAt(write, p, space, offset, rest, k + 1) == UnitWriteAt(write, p, w.space, offset + p, rest[p..], k);
    } else {
      assert UnitsWritten(write, p, space, offset, rest, 0);
      assert UnitWriteAt(write, p, space, offset, rest, 0) == w;
    }
  }

  /** When every unit read that succeeds delivers, after `fix`, the p bytes at its
      offset, the read loop delivers the count * p bytes from offset on. */
  lemma {:induction false} CheckReadLoopReadsSpan(space: Space, read: nat -> ReadResult,
                                                  fix: (nat, seq<bv8>) -> seq<bv8>, p: nat, offset: nat,
                                                  count: nat, data: seq<bv8>, done: seq<Access>, r: ReadResult)
    requires forall o :: read(o).status == Success ==> fix(o, read(o).data) == Span(space, o, p)
    requires r == CheckReadLoop(read, fix, p, offset, count, data, done)
    ensures r.status == Success ==> r.data == data + Span(space, offset, count * p)
    decreases count
  {
    if count == 0 {
      assert data + Span(space, offset, 0) == data;
    } else {
      var rc := read(offset);
      if rc.status == Success {
        var unit := fix(offset, rc.data);
        CheckReadLoopReadsSpan(space, read, fix, p, offset + p, count - 1, data + unit, done + rc.trace, r);
        UnitsSplit(count, p);
        SpanAdjacent(space, offset, p, (count - 1) * p);
        AppendAssoc(data, unit, Span(space, offset + p, (count - 1) * p));
      }
    }
  }

  /** When every unit write that succeeds stores exactly its unit, the write loop, when
      it succeeds, stores the caller's count * p bytes from offset on. */
  lemma {:induction false} CheckWriteLoopStores(write: (Space, nat, seq<bv8>) -> WriteResult, p: nat, space: Space,
                                                offset: nat, count: nat, rest: seq<bv8>, done: seq<Access>,
                                                n: nat, r: WriteResult)
    requires n == count * p <= |rest|
    requires forall s, o, u :: |u| == p && write(s, o, u).status == Success ==> write(s, o, u).space == Store(s, o, u)
    requires r == CheckWriteLoop(write, p, space, offset, count, rest, done)
    ensures r.status == Success ==> r.space == Store(space, offset, rest[..n])
    decreases count
  {
    if count == 0 {
      assert Store(space, offset, rest[..0]) == space;
    } else {
      UnitsSplit(count, p);
      var w := write(space, offset, rest[..p]);
      if w.status == Success {
        CheckWriteLoopStores(write, p, w.space, offset + p, count - 1, rest[p..], done + w.trace, n - p, r);
        if r.status == Success {
          StoreUnitThenRest(space, offset, rest, p, n);
        }
      }
    }
  }

  /** Storing the first p of the first n bytes and then the rest of them stores all n. */
  lemma StoreUnitThenRest(space: Space, offset: nat, rest: seq<bv8>, p: nat, n: nat)
    requires p <= n <= |rest|
    ensures Store(Store(space, offset, rest[..p]), offset + p, rest[p..][..n - p]) == Store(space, offset, rest[..n])
  {
    assert rest[..p] + rest[p..][..n - p] == rest[..n];
    StoreAdjacent(space, offset, rest[..p], rest[p..][..n - p]);
  }

  /** No access-width record applies when the access-width bit is set, and no
      register-value record when the register-update bit is set, for any device. */
  ghost predicate Unquirked(widthRules: bool, update: bool, access: AccessTable, values: ValueTable)
  {
    && (widthRules ==> forall i, dir, o, w :: access(i, dir, o, w).status != Success)
    && (update ==> forall i, dir, o :: values(i, dir, o).status != Success)
  }

  /** Without quirk records a unit read is one direct read, and the read fix-up leaves
      it as it is. */
  lemma UnquirkedUnitRead(fault: Fault, space: Space, widthRules: bool, access: AccessTable, values: ValueTable,
                          update: bool, info: DeviceInfo, width: nat)
    requires Unquirked(widthRules, update, access, values)
    ensures var read := UnitReader(fault, space, widthRules, access, info, width);
            var fix := UnitFixer(values, info, update, width);
            forall o :: read(o).status == Success ==> fix(o, read(o).data) == Span(space, o, Pow2(width))
  {
  }

  /** Without quirk records a unit write is one direct write of its bytes. */
  lemma UnquirkedUnitWrite(fault: Fault, widthRules: bool, access: AccessTable, values: ValueTable,
                           update: bool, info: DeviceInfo, width: nat)
    requires Unquirked(widthRules, update, access, values)
    ensures var write := UnitWriter(fault, widthRules, access, FixUpOf(values, info), update, info, width);
            forall s, o, u :: |u| == Pow2(width) && write(s, o, u).status == Success ==> write(s, o, u).space == Store(s, o, u)
  {
    var write := UnitWriter(fault, widthRules, access, FixUpOf(values, info), update, info, width);
    forall s, o, u | |u| == Pow2(width) && write(s, o, u).status == Success
      ensures write(s, o, u).space == Store(s, o, u)
    {
      var d := UnitData(FixUpOf(values, info), update, width, o, u);
      assert d[..|u|] == u;
    }
  }

  /** PciIncompatibilityCheckRead goes through exactly when the device's identity is
      fetched and every unit read by ReadConfigData at Offset + i * 2^Width goes
      through. */
  lemma CheckReadSucceeds(fault: Fault, space: Space, mask: SupportMask, access: AccessTable, values: ValueTable,
                          header: Option<PciHeader>, width: nat, offset: nat, count: nat, r: ReadResult)
    requires r == CheckRead(fault, space, mask, access, values, header, width, offset, count, true)
    ensures r.status == Success <==>
              var id := GetPciDeviceDeviceInfo(fault, space, header, offset);
              id.Ok? && UnitsRead(UnitReader(fault, space, mask.accessWidth, access, id.value, width),
                                  Pow2(width), offset, count)
  {
    var id := GetPciDeviceDeviceInfo(fault, space, header, offset);
    if id.Ok? {
      CheckReadLoopSucceeds(UnitReader(fault, space, mask.accessWidth, access, id.value, width),
                            UnitFixer(values, id.value, mask.registerUpdate, width), Pow2(width), offset, count, [],
                            InfoTrace(fault, space, header, offset), r);
    }
  }

  /** PciIncompatibilityCheckRead without quirk records reads the Count * 2^Width bytes
      from Offset on, as the transport's own read of Count units does. */
  lemma CheckReadUnquirked(fault: Fault, space: Space, mask: SupportMask, access: AccessTable, values: ValueTable,
                           header: Option<PciHeader>, width: nat, offset: nat, count: nat, n: nat, r: ReadResult)
    requires n == count * Pow2(width)
    requires Unquirked(mask.accessWidth, mask.registerUpdate, access, values)
    requires r == CheckRead(fault, space, mask, access, values, header, width, offset, count, true)
    ensures r.status == Success ==> r.data == Span(space, offset, n)
  {
    var id := GetPciDeviceDeviceInfo(fault, space, header, offset);
    if id.Ok? {
      UnquirkedUnitRead(fault, space, mask.accessWidth, access, values, mask.registerUpdate, id.value, width);
      CheckReadLoopReadsSpan(space, UnitReader(fault, space, mask.accessWidth, access, id.value, width),
                             UnitFixer(values, id.value, mask.registerUpdate, width), Pow2(width), offset, count, [],
                             InfoTrace(fault, space, header, offset), r);
    }
  }

  /** PciIncompatibilityCheckWrite without quirk records stores the caller's
      Count * 2^Width bytes from Offset on, as the transport's own write of Count units
      does. */
  lemma CheckWriteUnquirked(fault: Fault, space: Space, mask: SupportMask, access: AccessTable, values: ValueTable,
                            header: Option<PciHeader>, width: nat, offset: nat, count: nat, buffer: seq<bv8>,
                            n: nat, r: WriteResult)
    requires n == count * Pow2(width) <= |buffer|
    requires Unquirked(mask.accessWidth, mask.registerUpdate, access, values)
    requires r == CheckWrite(fault, space, mask, access, values, header, width, offset, count, Some(buffer))
    ensures r.status == Success ==> r.space == Store(space, offset, buffer[..n])
  {
    var id := GetPciDeviceDeviceInfo(fault, space, header, offset);
    if id.Ok? {
      UnquirkedUnitWrite(fault, mask.accessWidth, access, values, mask.registerUpdate, id.value, width);
      CheckWriteLoopStores(UnitWriter(fault, mask.accessWidth, access, FixUpOf(values, id.value), mask.registerUpdate,
                                      id.value, width),
                           Pow2(width), space, offset, count, buffer, InfoTrace(fault, space, header, offset), n, r);
    }
  }

  // ---------------------------------------------------------------------------
  // The protocol wrappers
  // ---------------------------------------------------------------------------

  /** How PciRootBridgeIoRead/Write report a checked access: UNSUPPORTED becomes
      INVALID_PARAMETER, any other status passes through. */
  function RootBridgeStatus(s: Status): (r: Status)
    ensures s == Unsupported ==> r == InvalidParameter
    ensures s != Unsupported ==> r == s
    ensures r != Unsupported
  {
    if s == Unsupported then InvalidParameter else s
  }

  /** PciRootBridgeIoRead: checked when the read bit of the support mask is set, with
      the caller's optional header snapshot; otherwise one transport read of Count units. */
  method PciRootBridgeIoRead(dev: PciConfigTransport, mask: SupportMask, access: AccessTable, values: ValueTable,
                             header: Option<PciHeader>, width: nat, offset: nat, count: nat, hasBuffer: bool)
    returns (status: Status, data: seq<bv8>)
    modifies dev
    ensures dev.space == old(dev.space)
    ensures mask.read ==>
              var r := CheckRead(dev.fault, old(dev.space), mask, access, values, header, width, offset, count, hasBuffer);
              status == RootBridgeStatus(r.status) && data == r.data && dev.log == old(dev.log) + r.trace
    ensures !mask.read ==>
              && status == Outcome(dev.fault, ReadOp, width, offset, count, hasBuffer)
              && (status == Success ==> data == Span(dev.space, offset, count * Pow2(width)))
              && dev.log == old(dev.log) + [Access(ReadOp, width, offset, count)]
  {
    if mask.read {
      status, data := PciIncompatibilityCheckRead(dev, mask, access, values, header, width, offset, count, hasBuffer);
      status := RootBridgeStatus(status);
    } else {
      status, data := dev.Read(width, offset, count, hasBuffer);
    }
  }

  /** PciRootBridgeIoWrite: checked when the write bit of the support mask is set;
      otherwise one transport write of Count units. */
  method PciRootBridgeIoWrite(dev: PciConfigTransport, mask: SupportMask, access: AccessTable, values: ValueTable,
                              header: Option<PciHeader>, width: nat, offset: nat, count: nat,
                              buffer: Option<seq<bv8>>)
    returns (status: Status)
    requires buffer.Some? ==> count * Pow2(width) <= |buffer.value|
    modifies dev
    ensures mask.write ==>
              var r := CheckWrite(dev.fault, old(dev.space), mask, access, values, header, width, offset, count, buffer);
              status == RootBridgeStatus(r.status) && dev.space == r.space && dev.log == old(dev.log) + r.trace
    ensures !mask.write ==>
              && status == Outcome(dev.fault, WriteOp, width, offset, count, buffer.Some?)
              && dev.space == (if status == Success then Store(old(dev.space), offset, buffer.value[..count * Pow2(width)])
                               else old(dev.space))
              && dev.log == old(dev.log) + [Access(WriteOp, width, offset, count)]
  {
    if mask.write {
      status := PciIncompatibilityCheckWrite(dev, mask, access, values, header, width, offset, count, buffer);
      status := RootBridgeStatus(status);
    } else {
      status := dev.Write(width, offset, count, buffer);
    }
  }

  /** PciIoRead: checked when the read bit is set, with the device's own header
      snapshot; otherwise one transport read. The checked status is returned as it is. */
  method PciIoRead(dev: PciConfigTransport, mask: SupportMask, access: AccessTable, values: ValueTable,
                   header: PciHeader, width: nat, offset: nat, count: nat, hasBuffer: bool)
    returns (status: Status, data: seq<bv8>)
    modifies dev
    ensures dev.space == old(dev.space)
    ensures mask.read ==>
              var r := CheckRead(dev.fault, old(dev.space), mask, access, values, Some(header), width, offset, count, hasBuffer);
              status == r.status && data == r.data && dev.log == old(dev.log) + r.trace
    ensures !mask.read ==>
              && status == Outcome(dev.fault, ReadOp, width, offset, count, hasBuffer)
              && (status == Success ==> data == Span(dev.space, offset, count * Pow2(width)))
              && dev.log == old(dev.log) + [Access(ReadOp, width, offset, count)]
  {
    if mask.read {
      status, data := PciIncompatibilityCheckRead(dev, mask, access, values, Some(header), width, offset, count, hasBuffer);
    } else {
      status, data := dev.Read(width, offset, count, hasBuffer);
    }
  }

  /** PciIoWrite: checked when the write bit is set, with the device's own header
      snapshot; otherwise one transport write. The checked status is returned as it is. */
  method PciIoWrite(dev: PciConfigTransport, mask: SupportMask, access: AccessTable, values: ValueTable,
                    header: PciHeader, width: nat, offset: nat, count: nat, buffer: Option<seq<bv8>>)
    returns (status: Status)
    requires buffer.Some? ==> count * Pow2(width) <= |buffer.value|
    modifies dev
    ensures mask.write ==>
              var r := CheckWrite(dev.fault, old(dev.space), mask, access, values, Some(header), width, offset, count, buffer);
              status == r.status && dev.space == r.space && dev.log == old(dev.log) + r.trace
    ensures !mask.write ==>
              && status == Outcome(dev.fault, WriteOp, width, offset, count, buffer.Some?)
              && dev.space == (if status == Success then Store(old(dev.space), offset, buffer.value[..count * Pow2(width)])
                               else old(dev.space))
              && dev.log == old(dev.log) + [Access(WriteOp, width, offset, count)]
  {
    if mask.write {
      status := PciIncompatibilityCheckWrite(dev, mask, access, values, Some(header), width, offset, count, buffer);
    } else {
      status := dev.Write(width, offset, count, buffer);
    }
  }
}
