/** The incompatible-device quirk records, the register-value fix-up (UpdateConfigData)
    and the device identity the quirk tables are keyed by (GetPciDeviceDeviceInfo). */
module Quirks {
  import opened EfiStatus
  import opened Bits
  import opened Transport

  /** VALUE_NOCARE: the all-ones marker meaning "this field imposes nothing", as the bit
      pattern the value masks are compared with. */
  const ValueNoCare: bv64 := 0xFFFF_FFFF_FFFF_FFFF

  /** VALUE_NOCARE as a number, for the UINT64 fields that are only compared. */
  const NoCare: nat := 0xFFFF_FFFF_FFFF_FFFF

  /** A UINT64 field that is compared but never masked. */
  type Uint64 = x: nat | x <= NoCare

  datatype AccessType = RegisterRead | RegisterWrite

  /** EFI_PCI_DEVICE_INFO: the identity the quirk tables are keyed by. Its UINT64 fields
      only ever hold values taken from 32-bit registers, so they are kept as 32-bit words. */
  datatype DeviceInfo = DeviceInfo(
    vendorId: bv32, deviceId: bv32, revisionId: bv32,
    subsystemVendorId: bv32, subsystemId: bv32)

  /** The identification fields of a PCI_TYPE00 header snapshot. */
  datatype PciHeader = PciHeader(
    vendorId: bv16, deviceId: bv16, revisionId: bv8,
    subsystemVendorId: bv16, subsystemId: bv16)

  /** EFI_PCI_REGISTER_ACCESS_DATA: the width the device needs and where the rule ends. */
  datatype AccessQuirk = AccessQuirk(width: Uint64, endOffset: Uint64)

  /** EFI_PCI_REGISTER_VALUE_DATA: masks applied to a register value. */
  datatype ValueQuirk = ValueQuirk(andValue: bv64, orValue: bv64)

  /** A table lookup: a status, and a record that means something only when the status is Success. */
  datatype Lookup<T> = Lookup(status: Status, data: T)

  /** PciRegisterAccessCheck: (device, access type, register offset, width code). */
  type AccessTable = (DeviceInfo, AccessType, nat, nat) -> Lookup<AccessQuirk>

  /** PciRegisterUpdateCheck: (device, access type, register offset). */
  type ValueTable = (DeviceInfo, AccessType, nat) -> Lookup<ValueQuirk>

  // ---------------------------------------------------------------------------
  // UpdateConfigData
  // ---------------------------------------------------------------------------

  /** The bits of a 32-bit buffer an access of width code w (0, 1, 2) covers. */
  function WidthMask(w: nat): bv32
    requires w <= 2
  {
    if w == 0 then 0xFF else if w == 1 then 0xFFFF else 0xFFFF_FFFF
  }

  /** `x >> (lane * 8)` for lane = Offset & 0x3. */
  function LaneShift(x: bv32, lane: nat): bv32
    requires lane < 4
  {
    if lane == 0 then x else if lane == 1 then x >> 8 else if lane == 2 then x >> 16 else x >> 24
  }

  /** The AND mask a matching record applies at this offset (all ones when it is VALUE_NOCARE). */
  function EffectiveAnd(q: ValueQuirk, offset: nat): bv32
  {
    if q.andValue != ValueNoCare then LaneShift(Low32(q.andValue), offset % 4) else 0xFFFF_FFFF
  }

  /** The OR mask a matching record applies at this offset (zero when it is VALUE_NOCARE). */
  function EffectiveOr(q: ValueQuirk, offset: nat): bv32
  {
    if q.orValue != ValueNoCare then LaneShift(Low32(q.orValue), offset % 4) else 0
  }

  /** TempValue after the masks: AND first, then OR, each skipped when VALUE_NOCARE. */
  function ApplyMasks(q: ValueQuirk, offset: nat, x: bv32): bv32
  {
    var t1 := if q.andValue != ValueNoCare then x & LaneShift(Low32(q.andValue), offset % 4) else x;
    if q.orValue != ValueNoCare then t1 | LaneShift(Low32(q.orValue), offset % 4) else t1
  }

  /** The 8-, 16- or 32-bit store of t into the buffer. */
  function MergeLow(width: nat, buffer: bv32, t: bv32): bv32
    requires width <= 2
  {
    if width == 0 then (buffer & 0xFFFF_FF00) | (t & 0xFF)
    else if width == 1 then (buffer & 0xFFFF_0000) | (t & 0xFFFF)
    else t
  }

  datatype Update = Update(status: Status, word: bv32)

  /** UpdateConfigData: buffer is the 32-bit word at the caller's buffer; the result is
      the status and that word afterwards. */
  function UpdateConfigData(values: ValueTable, info: DeviceInfo, access: AccessType,
                            width: nat, offset: nat, buffer: bv32): (r: Update)
    ensures values(info, access, offset % 256).status != Success ==>
              r == Update(values(info, access, offset % 256).status, buffer)
    ensures values(info, access, offset % 256).status == Success ==>
              r.status == (if width <= 2 then Success else Unsupported)
    ensures r.status == Success ==> width <= 2
    ensures width > 2 ==> r.word == buffer
  {
    var q := values(info, access, offset % 256);
    if q.status != Success then Update(q.status, buffer)
    else if width <= 2 then Update(Success, MergeLow(width, buffer, ApplyMasks(q.data, offset, buffer)))
    else Update(Unsupported, buffer)
  }

  /** AND with a, then OR with o. */
  function AndOr(a: bv32, o: bv32, x: bv32): bv32
  {
    (x & a) | o
  }

  /** t inside the mask m, buffer outside it. */
  function Masked(m: bv32, buffer: bv32, t: bv32): bv32
  {
    (buffer & !m) | (t & m)
  }

  /** A matching record's fix-up as one expression over its effective masks a and o and
      the access-width mask m: `(v & a) | o` inside m, the buffer outside it. */
  function Fixup(a: bv32, o: bv32, m: bv32, buffer: bv32): bv32
  {
    Masked(m, buffer, AndOr(a, o, buffer))
  }

  /** The masks with VALUE_NOCARE folded in are an AND followed by an OR. */
  lemma ApplyMasksIsAndOr(q: ValueQuirk, offset: nat, x: bv32)
    ensures ApplyMasks(q, offset, x) == AndOr(EffectiveAnd(q, offset), EffectiveOr(q, offset), x)
  {
    if q.andValue != ValueNoCare {
      AndUsed(q, offset, x);
    } else {
      AndUnused(q, offset, x);
    }
  }

  lemma AndUsed(q: ValueQuirk, offset: nat, x: bv32)
    requires q.andValue != ValueNoCare
    ensures ApplyMasks(q, offset, x) == AndOr(EffectiveAnd(q, offset), EffectiveOr(q, offset), x)
  {
    if q.orValue != ValueNoCare {
      AndOrUsed(q, offset, x);
    } else {
      OrSkipped(LaneShift(Low32(q.andValue), offset % 4), x);
    }
  }

  lemma AndOrUsed(q: ValueQuirk, offset: nat, x: bv32)
    requires q.andValue != ValueNoCare && q.orValue != ValueNoCare
    ensures ApplyMasks(q, offset, x) == AndOr(EffectiveAnd(q, offset), EffectiveOr(q, offset), x)
  {
  }

  lemma AndUnused(q: ValueQuirk, offset: nat, x: bv32)
    requires q.andValue == ValueNoCare
    ensures ApplyMasks(q, offset, x) == AndOr(EffectiveAnd(q, offset), EffectiveOr(q, offset), x)
  {
    var o := LaneShift(Low32(q.orValue), offset % 4);
    if q.orValue != ValueNoCare {
      AndSkipped(o, x);
    } else {
      NeitherMask(x);
    }
  }

  lemma OrSkipped(a: bv32, x: bv32)
    ensures x & a == AndOr(a, 0, x)
  {
  }

  lemma AndSkipped(o: bv32, x: bv32)
    ensures x | o == AndOr(0xFFFF_FFFF, o, x)
  {
  }

  lemma NeitherMask(x: bv32)
    ensures x == AndOr(0xFFFF_FFFF, 0, x)
  {
  }

  /** A store of width 2^width keeps the buffer outside WidthMask and takes t inside it. */
  lemma MergeLowIsMasked(width: nat, buffer: bv32, t: bv32)
    requires width <= 2
    ensures MergeLow(width, buffer, t) == Masked(WidthMask(width), buffer, t)
  {
    if width == 0 {
      MergeLow8(buffer, t);
    } else if width == 1 {
      MergeLow16(buffer, t);
    } else {
      MergeLow32(buffer, t);
    }
  }

  lemma MergeLow8(buffer: bv32, t: bv32)
    ensures (buffer & 0xFFFF_FF00) | (t & 0xFF) == Masked(0xFF, buffer, t)
  {
  }

  lemma MergeLow16(buffer: bv32, t: bv32)
    ensures (buffer & 0xFFFF_0000) | (t & 0xFFFF) == Masked(0xFFFF, buffer, t)
  {
  }

  lemma MergeLow32(buffer: bv32, t: bv32)
    ensures t == Masked(0xFFFF_FFFF, buffer, t)
  {
  }

  /** A matching record at width 8, 16 or 32 bits rewrites the word to its fix-up:
      `(v & (AndValue >> 8*(Offset&3))) | (OrValue >> 8*(Offset&3))` within the width,
      each mask skipped when it is VALUE_NOCARE. */
  lemma UpdateConfigDataIsFixup(values: ValueTable, info: DeviceInfo, access: AccessType,
                                width: nat, offset: nat, buffer: bv32)
    requires width <= 2
    requires values(info, access, offset % 256).status == Success
    ensures var q := values(info, access, offset % 256).data;
            UpdateConfigData(values, info, access, width, offset, buffer).word
              == Fixup(EffectiveAnd(q, offset), EffectiveOr(q, offset), WidthMask(width), buffer)
  {
    var q := values(info, access, offset % 256).data;
    ApplyMasksIsAndOr(q, offset, buffer);
    MergeLowIsMasked(width, buffer, ApplyMasks(q, offset, buffer));
  }

  /** Within the width, every OR bit ends up set. */
  lemma FixupSetsOrBits(a: bv32, o: bv32, m: bv32, buffer: bv32, r: bv32)
    requires r == Fixup(a, o, m, buffer)
    ensures r & o & m == o & m
  {
  }

  /** Within the width, a bit outside the OR mask is the caller's bit ANDed with the AND mask. */
  lemma FixupAndsOtherBits(a: bv32, o: bv32, m: bv32, buffer: bv32, r: bv32)
    requires r == Fixup(a, o, m, buffer)
    ensures r & !o & m == buffer & a & !o & m
  {
  }

  /** Outside the width nothing changes. */
  lemma FixupKeepsHighBits(a: bv32, o: bv32, m: bv32, buffer: bv32, r: bv32)
    requires r == Fixup(a, o, m, buffer)
    ensures r & !m == buffer & !m
  {
  }

  /** With a matching record, every bit of the shifted OR mask inside the access width
      is set in the result. */
  lemma UpdateConfigDataSetsOrBits(
      values: ValueTable, info: DeviceInfo, access: AccessType,
      width: nat, offset: nat, buffer: bv32, a: bv32, o: bv32, m: bv32, r: bv32)
    requires width <= 2
    requires values(info, access, offset % 256).status == Success
    requires a == EffectiveAnd(values(info, access, offset % 256).data, offset)
    requires o == EffectiveOr(values(info, access, offset % 256).data, offset)
    requires m == WidthMask(width)
    requires r == UpdateConfigData(values, info, access, width, offset, buffer).word
    ensures r & o & m == o & m
  {
    UpdateConfigDataIsFixup(values, info, access, width, offset, buffer);
    FixupSetsOrBits(a, o, m, buffer, r);
  }

  /** With a matching record, a bit inside the access width and outside the shifted OR
      mask is the caller's bit where the shifted AND mask has it and clear elsewhere. */
  lemma UpdateConfigDataAndsOtherBits(
      values: ValueTable, info: DeviceInfo, access: AccessType,
      width: nat, offset: nat, buffer: bv32, a: bv32, o: bv32, m: bv32, r: bv32)
    requires width <= 2
    requires values(info, access, offset % 256).status == Success
    requires a == EffectiveAnd(values(info, access, offset % 256).data, offset)
    requires o == EffectiveOr(values(info, access, offset % 256).data, offset)
    requires m == WidthMask(width)
    requires r == UpdateConfigData(values, info, access, width, offset, buffer).word
    ensures r & !o & m == buffer & a & !o & m
  {
    UpdateConfigDataIsFixup(values, info, access, width, offset, buffer);
    FixupAndsOtherBits(a, o, m, buffer, r);
  }

  /** With a matching record, the bits above the access width are the caller's. */
  lemma UpdateConfigDataKeepsHighBits(
      values: ValueTable, info: DeviceInfo, access: AccessType,
      width: nat, offset: nat, buffer: bv32, a: bv32, o: bv32, m: bv32, r: bv32)
    requires width <= 2
    requires values(info, access, offset % 256).status == Success
    requires a == EffectiveAnd(values(info, access, offset % 256).data, offset)
    requires o == EffectiveOr(values(info, access, offset % 256).data, offset)
    requires m == WidthMask(width)
    requires r == UpdateConfigData(values, info, access, width, offset, buffer).word
    ensures r & !m == buffer & !m
  {
    UpdateConfigDataIsFixup(values, info, access, width, offset, buffer);
    FixupKeepsHighBits(a, o, m, buffer, r);
  }

  lemma FixupIdempotent(a: bv32, o: bv32, m: bv32, buffer: bv32)
    ensures Fixup(a, o, m, Fixup(a, o, m, buffer)) == Fixup(a, o, m, buffer)
  {
  }

  /** Applying the same fix-up twice is the same as applying it once. */
  lemma UpdateConfigDataIdempotent(values: ValueTable, info: DeviceInfo, access: AccessType,
                                   width: nat, offset: nat, buffer: bv32)
    ensures var once := UpdateConfigData(values, info, access, width, offset, buffer);
            UpdateConfigData(values, info, access, width, offset, once.word) == once
  {
    var q := values(info, access, offset % 256);
    if q.status == Success && width <= 2 {
      var a, o, m := EffectiveAnd(q.data, offset), EffectiveOr(q.data, offset), WidthMask(width);
      UpdateConfigDataIsFixup(values, info, access, width, offset, buffer);
      UpdateConfigDataIsFixup(values, info, access, width, offset, Fixup(a, o, m, buffer));
      FixupIdempotent(a, o, m, buffer);
    }
  }

  lemma FixupIgnoresHighBits(a: bv32, o: bv32, m: bv32, b1: bv32, b2: bv32, r1: bv32, r2: bv32)
    requires b1 & m == b2 & m
    requires r1 == Fixup(a, o, m, b1) && r2 == Fixup(a, o, m, b2)
    ensures r1 & m == r2 & m
  {
  }

  /** With a matching record, the bits written back depend only on the bits inside the
      access width, so whatever follows a narrow buffer in memory cannot leak into the
      result (without one the buffer is returned untouched). */
  lemma UpdateConfigDataIgnoresHighBits(values: ValueTable, info: DeviceInfo, access: AccessType,
                                        width: nat, offset: nat, b1: bv32, b2: bv32,
                                        a: bv32, o: bv32, m: bv32, r1: bv32, r2: bv32)
    requires width <= 2
    requires values(info, access, offset % 256).status == Success
    requires a == EffectiveAnd(values(info, access, offset % 256).data, offset)
    requires o == EffectiveOr(values(info, access, offset % 256).data, offset)
    requires m == WidthMask(width)
    requires r1 == UpdateConfigData(values, info, access, width, offset, b1).word
    requires r2 == UpdateConfigData(values, info, access, width, offset, b2).word
    requires b1 & m == b2 & m
    ensures r1 & m == r2 & m
  {
    UpdateConfigDataIsFixup(values, info, access, width, offset, b1);
    UpdateConfigDataIsFixup(values, info, access, width, offset, b2);
    FixupIgnoresHighBits(a, o, m, b1, b2, r1, r2);
  }

  // ---------------------------------------------------------------------------
  // GetPciDeviceDeviceInfo
  // ---------------------------------------------------------------------------

  /** The identity recorded in a header snapshot. */
  function InfoFromHeader(h: PciHeader): DeviceInfo
  {
    DeviceInfo(h.vendorId as bv32, h.deviceId as bv32, h.revisionId as bv32,
               h.subsystemVendorId as bv32, h.subsystemId as bv32)
  }

  /** The three identification dwords of a function's configuration header. */
  datatype IdDwords = IdDwords(id: bv32, classRevision: bv32, subsystem: bv32)

  /** VendorID and DeviceID are the low and high halves of dword 0, RevisionID is
      dword 8 masked with 0xF, the subsystem IDs are the halves of dword 0x2C. */
  function DecodeInfo(d: IdDwords): (r: DeviceInfo)
    ensures r.revisionId <= 0xF
  {
    DeviceInfo(Low16(d.id), High16(d.id), d.classRevision & 0xF,
               Low16(d.subsystem), High16(d.subsystem))
  }

  /** GetPciDeviceDeviceInfo. With a header snapshot (always the case through
      EFI_PCI_IO_PROTOCOL) its fields are copied; otherwise three 32-bit reads at the
      function's base (offset with the low 8 bits cleared) + 0, + 8 and + 0x2C, any
      failure returned as it is, and an all-ones vendor ID meaning no device. */
  function GetPciDeviceDeviceInfo(fault: Fault, space: Space, header: Option<PciHeader>, offset: nat): Result<DeviceInfo>
  {
    if header.Some? then Ok(InfoFromHeader(header.value))
    else
      var base := offset - offset % 256;
      InfoFromReads(Outcome(fault, ReadOp, 2, base, 1, true), Dword(Span(space, base, 4)),
                    Outcome(fault, ReadOp, 2, base + 8, 1, true), Dword(Span(space, base + 8, 4)),
                    Outcome(fault, ReadOp, 2, base + 0x2C, 1, true), Dword(Span(space, base + 0x2C, 4)))
  }

  /** The identity from the statuses and values of the three reads, taken in order: the
      first failing read's status, NOT_FOUND for an all-ones vendor ID, or the decoded
      identity. A value whose read failed (or was never made) is not looked at. */
  function InfoFromReads(s0: Status, id: bv32, s8: Status, revision: bv32, s2c: Status, subsystem: bv32): Result<DeviceInfo>
  {
    if s0 != Success then Err(s0)
    else if Low16(id) == 0xFFFF then Err(NotFound)
    else if s8 != Success then Err(s8)
    else if s2c != Success then Err(s2c)
    else Ok(DecodeInfo(IdDwords(id, revision, subsystem)))
  }

  /** Without a header snapshot the identity comes from the three reads at the
      function's base. */
  lemma DeviceInfoReads(fault: Fault, space: Space, offset: nat, base: nat)
    requires base == offset - offset % 256
    ensures GetPciDeviceDeviceInfo(fault, space, None, offset)
         == InfoFromReads(Outcome(fault, ReadOp, 2, base, 1, true), Dword(Span(space, base, 4)),
                          Outcome(fault, ReadOp, 2, base + 8, 1, true), Dword(Span(space, base + 8, 4)),
                          Outcome(fault, ReadOp, 2, base + 0x2C, 1, true), Dword(Span(space, base + 0x2C, 4)))
  {
  }

  /** With a header snapshot the identity is the snapshot's; without one, a successful
      identification found a vendor ID other than all ones at the function's base and
      decoded the dwords at + 0, + 8 and + 0x2C. */
  lemma DeviceInfoDecoded(fault: Fault, space: Space, header: Option<PciHeader>, offset: nat)
    ensures var r := GetPciDeviceDeviceInfo(fault, space, header, offset);
            var base := offset - offset % 256;
            && (header.Some? ==> r == Ok(InfoFromHeader(header.value)))
            && (header.None? && r.Ok? ==> Low16(Dword(Span(space, base, 4))) != 0xFFFF)
            && (header.None? && r.Ok? ==>
                  r.value == DecodeInfo(IdDwords(Dword(Span(space, base, 4)), Dword(Span(space, base + 8, 4)),
                                                 Dword(Span(space, base + 0x2C, 4)))))
  {
  }

  /** Reads and decoding agree: the identity read from configuration space is an error
      exactly when one of the three reads fails or the vendor ID reads as 0xFFFF, and
      the error is the first failing read's status or NOT_FOUND. */
  lemma DeviceInfoErrors(fault: Fault, space: Space, offset: nat)
    ensures var base := offset - offset % 256;
            var r := GetPciDeviceDeviceInfo(fault, space, None, offset);
            && (r.Err? <==>
                  (|| Outcome(fault, ReadOp, 2, base, 1, true) != Success
                   || Low16(Dword(Span(space, base, 4))) == 0xFFFF
                   || Outcome(fault, ReadOp, 2, base + 8, 1, true) != Success
                   || Outcome(fault, ReadOp, 2, base + 0x2C, 1, true) != Success))
            && (r.Err? && Outcome(fault, ReadOp, 2, base, 1, true) == Success ==>
                  r.status == NotFound || r.status == Outcome(fault, ReadOp, 2, base + 8, 1, true)
                  || r.status == Outcome(fault, ReadOp, 2, base + 0x2C, 1, true))
  {
  }

  /** Every register of a function's configuration space identifies the same device:
      the identity depends on the offset only through its base. */
  lemma DeviceInfoSameForFunction(fault: Fault, space: Space, o1: nat, o2: nat)
    requires o1 / 256 == o2 / 256
    ensures GetPciDeviceDeviceInfo(fault, space, None, o1) == GetPciDeviceDeviceInfo(fault, space, None, o2)
  {
    var base := o1 - o1 % 256;
    assert o2 - o2 % 256 == base;
    DeviceInfoReads(fault, space, o1, base);
    DeviceInfoReads(fault, space, o2, base);
  }

  /** A device whose two vendor ID bytes read all ones is absent, whatever register of
      its configuration space the offset names. */
  lemma AbsentDeviceNotFound(fault: Fault, space: Space, offset: nat)
    requires Outcome(fault, ReadOp, 2, offset - offset % 256, 1, true) == Success
    requires Peek(space, offset - offset % 256) == 0xFF && Peek(space, offset - offset % 256 + 1) == 0xFF
    ensures GetPciDeviceDeviceInfo(fault, space, None, offset) == Err(NotFound)
  {
    var b := Span(space, offset - offset % 256, 4);
    Low16OfBytes(b);
    VendorAllOnes(b[0], b[1]);
  }

  lemma VendorAllOnes(b0: bv8, b1: bv8)
    requires b0 == 0xFF && b1 == 0xFF
    ensures (b0 as bv32) | ((b1 as bv32) << 8) == 0xFFFF
  {
  }

  /** The identity decoded from configuration space equals the one copied from a header
      snapshot of the same registers exactly when the revision ID fits in 4 bits: the
      read path masks it with 0xF, the snapshot path keeps all 8 bits. */
  lemma DeviceInfoPathsAgree(id: bv32, classRevision: bv32, subsystem: bv32, h: PciHeader)
    requires Low16(id) == h.vendorId as bv32 && High16(id) == h.deviceId as bv32
    requires classRevision & 0xFF == h.revisionId as bv32
    requires Low16(subsystem) == h.subsystemVendorId as bv32
    requires High16(subsystem) == h.subsystemId as bv32
    ensures DecodeInfo(IdDwords(id, classRevision, subsystem)) == InfoFromHeader(h) <==> h.revisionId < 16
  {
    RevisionNibble(classRevision, h.revisionId);
  }

  /** Of a revision byte, the 0xF mask keeps all of it exactly when it is below 16. */
  lemma RevisionNibble(x: bv32, rev: bv8)
    requires x & 0xFF == rev as bv32
    ensures x & 0xF == rev as bv32 <==> rev < 16
  {
  }
}
