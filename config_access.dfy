/** The width-compensating configuration accessor: ReadConfigData and WriteConfigData,
    which split or widen an access the way a device's access-width record demands, the
    per-unit loops PciIncompatibilityCheckRead/Write, and the four protocol wrappers. */
module ConfigAccess {
  import opened EfiStatus
  import opened Bits
  import opened Transport
  import opened Quirks

  /** The bits of PcdPciIncompatibleDeviceSupportMask: check reads, check writes, apply
      register-value records, apply access-width records. */
  datatype SupportMask = SupportMask(read: bool, write: bool, registerUpdate: bool, accessWidth: bool)

  // ---------------------------------------------------------------------------
  // Access traces
  // ---------------------------------------------------------------------------

  /** The first address past a single-unit access. */
  function Stop(x: Access): nat
  {
    x.addr + Pow2(x.width)
  }

  /** The platform's verdict on an access made with a buffer. */
  function Verdict(fault: Fault, x: Access): Status
  {
    Outcome(fault, x.dir, x.width, x.addr, x.count, true)
  }

  function Last(t: seq<Access>): Access
    requires |t| > 0
  {
    t[|t| - 1]
  }

  /** A single-unit access in direction d starting below `end`. */
  ghost predicate Unit(d: Direction, end: nat, x: Access)
  {
    x.dir == d && x.count == 1 && x.addr < end
  }

  /** x went through and stopped below `end`, where y starts. */
  ghost predicate Linked(fault: Fault, end: nat, x: Access, y: Access)
  {
    Verdict(fault, x) == Success && Stop(x) < end && y.addr == Stop(x)
  }

  /** A run of single-unit accesses in direction d: every access but the last went
      through, stopped below `end` and is followed by one starting where it stopped; the
      last one either failed or reached `end`. */
  ghost predicate Covers(fault: Fault, d: Direction, end: nat, t: seq<Access>)
    decreases |t|
  {
    && |t| > 0
    && Unit(d, end, t[0])
    && if |t| == 1 then (Verdict(fault, t[0]) == Success ==> Stop(t[0]) >= end)
       else Linked(fault, end, t[0], t[1]) && Covers(fault, d, end, t[1..])
  }

  /** A successful access below `end` in front of a run that starts where it stops. */
  lemma CoversCons(fault: Fault, d: Direction, end: nat, x: Access, t: seq<Access>)
    requires Covers(fault, d, end, t) && t[0].addr == Stop(x)
    requires x.dir == d && x.count == 1 && Stop(x) < end && Verdict(fault, x) == Success
    ensures Covers(fault, d, end, [x] + t)
  {
    assert ([x] + t)[1..] == t;
  }

  /** Every access of a run lies between the run's first address and `end`, and each one
      starts where the one before it stopped. */
  lemma {:induction false} CoversSpan(fault: Fault, d: Direction, end: nat, t: seq<Access>)
    requires Covers(fault, d, end, t)
    ensures forall k :: 0 <= k < |t| ==> t[0].addr <= t[k].addr < end
    ensures forall k :: 0 < k < |t| ==> t[k].addr == Stop(t[k - 1])
    decreases |t|
  {
    if |t| > 1 {
      CoversSpan(fault, d, end, t[1..]);
      assert forall k :: 0 < k < |t| ==> t[k] == t[1..][k - 1];
    }
  }

  /** In a run every access but the last went through, and the last failed or reached `end`. */
  lemma {:induction false} CoversVerdicts(fault: Fault, d: Direction, end: nat, t: seq<Access>)
    requires Covers(fault, d, end, t)
    ensures forall k :: 0 <= k < |t| - 1 ==> Verdict(fault, t[k]) == Success && Stop(t[k]) < end
    ensures Verdict(fault, Last(t)) == Success ==> Stop(Last(t)) >= end
    decreases |t|
  {
    if |t| > 1 {
      CoversVerdicts(fault, d, end, t[1..]);
      assert forall k :: 0 < k < |t| ==> t[k] == t[1..][k - 1];
      assert Last(t) == Last(t[1..]);
    }
  }

  /** Small facts about sequences, called where the solver needs them as hints. */
  lemma PrefixOfPrefix<T>(t: seq<T>, i: nat, j: nat)
    requires i <= j <= |t|
    ensures t[..i] == t[..j][..i]
  {
  }

  lemma SuffixCons<T>(t: seq<T>, i: nat)
    requires i < |t|
    ensures t[i..] == [t[i]] + t[i + 1..]
  {
  }

  lemma AppendAssoc<T>(a: seq<T>, b: seq<T>, c: seq<T>)
    ensures (a + b) + c == a + (b + c)
  {
  }

  // ---------------------------------------------------------------------------
  // The access-width walk shared by reads and writes
  // ---------------------------------------------------------------------------

  /** The access-width record in force and the width code the next access uses. */
  datatype Plan = Plan(rule: AccessQuirk, width: nat)

  /** The width a record imposes: its own unless it is VALUE_NOCARE. */
  function RuleWidth(rule: AccessQuirk, w: nat): nat
  {
    if rule.width != NoCare then rule.width else w
  }

  /** The plan for the first access of ReadConfigData / WriteConfigData. */
  function StartPlan(rule: AccessQuirk, width: nat): (p: Plan)
    ensures rule.width == NoCare ==> p.width == width
  {
    Plan(rule, RuleWidth(rule, width))
  }

  /** AccessAddress, `Offset & ~((1 << AccessWidth) - 1)`: Offset rounded down to the
      plan's access size. */
  function AccessAddress(plan: Plan, offset: nat): (r: nat)
    ensures r <= offset < r + Pow2(plan.width)
    ensures r % Pow2(plan.width) == 0
  {
    var p := Pow2(plan.width);
    RoundDown(offset, p);
    offset - offset % p
  }

  /** After stepping to addr: while the register offset is below the record's EndOffset
      the plan stands; otherwise the table is consulted again at the current width, and a
      hit replaces the record (and the width, unless VALUE_NOCARE). */
  function Advance(access: AccessTable, info: DeviceInfo, dir: AccessType, plan: Plan, addr: nat): (p: Plan)
    ensures addr % 256 < plan.rule.endOffset ==> p == plan
  {
    if addr % 256 < plan.rule.endOffset then plan
    else
      var l := access(info, dir, addr % 256, plan.width);
      if l.status == Success then Plan(l.data, RuleWidth(l.data, plan.width)) else plan
  }

  // ---------------------------------------------------------------------------
  // ReadConfigData
  // ---------------------------------------------------------------------------

  datatype Walk = Walk(status: Status, trace: seq<Access>)

  /** The physical reads of the access-width path from addr on, after the reads `done`:
      one unit of the plan's width at a time, until a read fails or the address reaches
      `end`. */
  function ReadWalk(fault: Fault, access: AccessTable, info: DeviceInfo, end: nat, plan: Plan, addr: nat,
                    done: seq<Access>): (r: Walk)
    requires addr < end
    ensures |r.trace| > |done|
    decreases end - addr
  {
    var x := Access(ReadOp, plan.width, addr, 1);
    var s := Outcome(fault, ReadOp, plan.width, addr, 1, true);
    var next := addr + Pow2(plan.width);
    if s != Success || next >= end then Walk(s, done + [x])
    else ReadWalk(fault, access, info, end, Advance(access, info, RegisterRead, plan, next), next, done + [x])
  }

  /** A read that goes through and stops below `end` is followed by the rest of the walk. */
  lemma ReadWalkNext(fault: Fault, access: AccessTable, info: DeviceInfo, end: nat, plan: Plan, addr: nat,
                     done: seq<Access>, next: nat)
    requires addr < end && next == addr + Pow2(plan.width) < end
    requires Outcome(fault, ReadOp, plan.width, addr, 1, true) == Success
    ensures ReadWalk(fault, access, info, end, plan, addr, done)
         == ReadWalk(fault, access, info, end, Advance(access, info, RegisterRead, plan, next), next,
                     done + [Access(ReadOp, plan.width, addr, 1)])
  {
  }

  /** The reads the walk adds after `done` tile the registers from addr up to `end`, the
      first of them at addr, and the walk's status is the verdict on the last of them. */
  lemma {:induction false} ReadWalkCovers(fault: Fault, access: AccessTable, info: DeviceInfo, end: nat, plan: Plan,
                                          addr: nat, done: seq<Access>, r: Walk)
    requires addr < end
    requires r == ReadWalk(fault, access, info, end, plan, addr, done)
    ensures |r.trace| > |done| && r.trace[..|done|] == done
    ensures r.trace[|done|] == Access(ReadOp, plan.width, addr, 1)
    ensures Covers(fault, ReadOp, end, r.trace[|done|..])
    ensures r.status == Verdict(fault, Last(r.trace))
    decreases end - addr
  {
    var x := Access(ReadOp, plan.width, addr, 1);
    var next := addr + Pow2(plan.width);
    if Outcome(fault, ReadOp, plan.width, addr, 1, true) == Success && next < end {
      var p := Advance(access, info, RegisterRead, plan, next);
      ReadWalkCovers(fault, access, info, end, p, next, done + [x], r);
      var t := r.trace;
      PrefixOfPrefix(t, |done|, |done| + 1);
      SuffixCons(t, |done|);
      CoversCons(fault, ReadOp, end, x, t[|done| + 1..]);
    } else {
      assert r.trace[|done|..] == [x];
    }
  }

  /** What ReadConfigData returns: its status, the bytes it stores in the caller's
      buffer, and the physical reads it makes. */
  datatype ReadResult = ReadResult(status: Status, data: seq<bv8>, trace: seq<Access>)

  /** Whether ReadConfigData / WriteConfigData take the access-width path. */
  predicate WidthRuleApplies(widthRules: bool, access: AccessTable, info: DeviceInfo, dir: AccessType,
                             width: nat, offset: nat)
  {
    widthRules && access(info, dir, offset % 256, width).status == Success
  }

  /** ReadConfigData. With an access-width record for the register the reads start at
      Offset rounded down to the record's access size and go on until they reach
      Offset + 2^Width; the caller receives the low 2^Width bytes of what was read, and
      a width other than 8, 16 or 32 bits is refused only after the reads. Otherwise it is
      one direct read. */
  function ReadConfig(fault: Fault, space: Space, widthRules: bool, access: AccessTable, info: DeviceInfo,
                      width: nat, offset: nat): (r: ReadResult)
    ensures r.status == Success ==> width <= 3 && |r.data| == Pow2(width)
    ensures r.status != Success ==> r.data == []
    ensures |r.trace| > 0
  {
    if WidthRuleApplies(widthRules, access, info, RegisterRead, width, offset) then
      var plan := StartPlan(access(info, RegisterRead, offset % 256, width).data, width);
      var start := AccessAddress(plan, offset);
      var w := ReadWalk(fault, access, info, offset + Pow2(width), plan, start, []);
      if w.status != Success then ReadResult(w.status, [], w.trace)
      else if width <= 2 then ReadResult(Success, Span(space, start, Pow2(width)), w.trace)
      else ReadResult(Unsupported, [], w.trace)
    else
      var s := Outcome(fault, ReadOp, width, offset, 1, true);
      ReadResult(s, if s == Success then Span(space, offset, Pow2(width)) else [], [Access(ReadOp, width, offset, 1)])
  }

  /** ReadConfigData as its access-width path is evidently meant to behave: the same
      reads and status, with the caller's bytes taken from Offset rather than from
      AccessAddress, as TempBuffer shifted right by (Offset - AccessAddress) * 8 before
      the copy-out would give them. */
  function ShiftedReadConfig(fault: Fault, space: Space, widthRules: bool, access: AccessTable, info: DeviceInfo,
                             width: nat, offset: nat): (r: ReadResult)
    ensures var q := ReadConfig(fault, space, widthRules, access, info, width, offset);
            r.status == q.status && r.trace == q.trace
    ensures r.status == Success ==> r.data == Span(space, offset, Pow2(width))
  {
    var q := ReadConfig(fault, space, widthRules, access, info, width, offset);
    ReadResult(q.status, if q.status == Success then Span(space, offset, Pow2(width)) else [], q.trace)
  }

  /** The read loop of ReadConfigData's access-width path: the bytes read so far
      accumulate from `start` on (in C through `Pointer` into TempBuffer, which holds
      only eight of them). */
  method ReadLoop(dev: PciConfigTransport, access: AccessTable, info: DeviceInfo, end: nat, plan0: Plan, start: nat)
    returns (status: Status, temp: seq<bv8>)
    requires start < end
    modifies dev
    ensures dev.space == old(dev.space)
    ensures var w := ReadWalk(dev.fault, access, info, end, plan0, start, []);
            status == w.status && dev.log == old(dev.log) + w.trace
    ensures status == Success ==> |temp| >= end - start && temp == Span(dev.space, start, |temp|)
  {
    var plan := plan0;
    var addr := start;
    temp := [];
    ghost var space := dev.space;
    ghost var done: seq<Access> := [];
    ghost var whole := ReadWalk(dev.fault, access, info, end, plan, start, []);
    while true
      invariant start <= addr < end
      invariant dev.space == space == old(dev.space)
      invariant temp == Span(space, start, addr - start)
      invariant dev.log == old(dev.log) + done
      invariant whole == ReadWalk(dev.fault, access, info, end, plan, addr, done)
      decreases end - addr
    {
      ghost var x, prior := Access(ReadOp, plan.width, addr, 1), done;
      var s, bytes := dev.Read(plan.width, addr, 1, true);
      AppendAssoc(old(dev.log), done, [x]);
      done := done + [x];
      if s != Success {
        return s, temp;
      }
      SpanExtend(space, start, addr, Pow2(plan.width), temp, bytes);
      temp := temp + bytes;
      var next := addr + Pow2(plan.width);
      if next >= end {
        return Success, temp;
      }
      ReadWalkNext(dev.fault, access, info, end, plan, addr, prior, next);
      plan := Advance(access, info, RegisterRead, plan, next);
      addr := next;
    }
  }

  /** ReadConfigData on a transport: the reads it makes are ReadConfig's, in order, and
      configuration space is left as it was. */
  method ReadConfigData(dev: PciConfigTransport, widthRules: bool, access: AccessTable, info: DeviceInfo,
                        width: nat, offset: nat)
    returns (status: Status, data: seq<bv8>)
    modifies dev
    ensures dev.space == old(dev.space)
    ensures var r := ReadConfig(dev.fault, old(dev.space), widthRules, access, info, width, offset);
            status == r.status && data == r.data && dev.log == old(dev.log) + r.trace
  {
    var first := access(info, RegisterRead, offset % 256, width);
    if widthRules && first.status == Success {
      var plan := StartPlan(first.data, width);
      var start := AccessAddress(plan, offset);
      var s, temp := ReadLoop(dev, access, info, offset + Pow2(width), plan, start);
      if s != Success {
        status, data := s, [];
      } else if width <= 2 {
        status, data := Success, temp[..Pow2(width)];
      } else {
        status, data := Unsupported, [];
      }
    } else {
      status, data := dev.Read(width, offset, 1, true);
    }
  }

  // ---------------------------------------------------------------------------
  // WriteConfigData
  // ---------------------------------------------------------------------------

  /** The 8-byte little-endian image of the UINT64 Data of WriteConfigData. */
  type Image = d: seq<bv8> | |d| == 8 witness [0, 0, 0, 0, 0, 0, 0, 0]

  /** UpdateConfigData applied to the low 32 bits of Data: (access type, width code,
      offset, Data before) to Data after. */
  type FixUp = (AccessType, nat, nat, Image) -> Image

  /** UpdateConfigData on the low 32 bits of the Data image. */
  function Fix(values: ValueTable, info: DeviceInfo, dir: AccessType, w: nat, off: nat, d: Image): (r: Image)
    ensures r[4..] == d[4..]
    ensures values(info, dir, off % 256).status != Success ==> r == d
  {
    var u := UpdateConfigData(values, info, dir, w, off, Dword(d));
    if u.status == Success then DwordBytes(u.word) + d[4..] else d
  }

  /** The fix-up a device's register-value records define. */
  function FixUpOf(values: ValueTable, info: DeviceInfo): FixUp
  {
    (dir: AccessType, w: nat, off: nat, d: Image) => Fix(values, info, dir, w, off, d)
  }

  /** `(Buffer) << Shift | (Data & ~(mask << Shift))`: the bytes b put in place of bytes
      lane, lane + 1, ... of d. */
  function MergeLane(d: seq<bv8>, lane: nat, b: seq<bv8>): (r: seq<bv8>)
    ensures |r| == |d|
  {
    seq(|d|, k requires 0 <= k < |d| => if lane <= k < lane + |b| then b[k - lane] else d[k])
  }

  /** The lane holds the caller's bytes and every other byte is left as it was. */
  lemma MergeLaneBytes(d: seq<bv8>, lane: nat, b: seq<bv8>)
    requires lane + |b| <= |d|
    ensures MergeLane(d, lane, b)[lane..lane + |b|] == b
    ensures forall k :: 0 <= k < |d| && !(lane <= k < lane + |b|) ==> MergeLane(d, lane, b)[k] == d[k]
  {
  }

  /** Data before one write of the access-width path, with the reads made to produce it.
      When the access is wider than the caller's, the register is read back first (a
      failing read ends the write), fixed up as a read, the caller's 8- or 16-bit value is
      merged in at Offset, and the result is fixed up as a write at `AccessAddress * 0xff`. */
  datatype Prepared = Prepared(status: Status, image: Image, trace: seq<Access>)

  function Prepare(fault: Fault, space: Space, widthRules: bool, access: AccessTable, fix: FixUp,
                   info: DeviceInfo, width: nat, offset: nat, caller: Image, aw: nat, addr: nat,
                   image: Image): (r: Prepared)
    ensures aw <= width ==> r == Prepared(Success, image, [])
    ensures aw > width ==> var rd := ReadConfig(fault, space, widthRules, access, info, aw, addr);
              r.trace == rd.trace && (rd.status != Success ==> r.status == rd.status && r.image == image)
              && (rd.status == Success ==> r.status == Success)
  {
    if aw <= width then Prepared(Success, image, [])
    else
      var rd := ReadConfig(fault, space, widthRules, access, info, aw, addr);
      if rd.status != Success then Prepared(rd.status, image, rd.trace)
      else
        Pow2AtMost8(aw);
        var d1 := fix(RegisterRead, aw, addr % 256, rd.data + image[|rd.data|..]);
        var d2 := if width <= 1 && addr <= offset then MergeLane(d1, offset - addr, caller[..Pow2(width)]) else d1;
        Prepared(Success, fix(RegisterWrite, aw, addr * 255, d2), rd.trace)
  }

  datatype WriteResult = WriteResult(status: Status, space: Space, trace: seq<Access>)

  /** The access-width path of WriteConfigData from addr on, after the accesses `done`:
      each step prepares Data, writes its low 2^AccessWidth bytes at addr, shifts them
      out of Data and moves on, until an access fails or the address reaches
      Offset + 2^Width. */
  function WriteWalk(fault: Fault, widthRules: bool, access: AccessTable, fix: FixUp, info: DeviceInfo,
                     width: nat, offset: nat, caller: Image,
                     space: Space, plan: Plan, addr: nat, image: Image, done: seq<Access>): (r: WriteResult)
    requires addr < offset + Pow2(width)
    ensures |r.trace| > |done|
    decreases offset + Pow2(width) - addr
  {
    var aw := plan.width;
    var p := Prepare(fault, space, widthRules, access, fix, info, width, offset, caller, aw, addr, image);
    var t := done + p.trace;
    if p.status != Success then WriteResult(p.status, space, t)
    else
      var x := Access(WriteOp, aw, addr, 1);
      var s := Outcome(fault, WriteOp, aw, addr, 1, true);
      if s != Success then WriteResult(s, space, t + [x])
      else
        Pow2AtMost8(aw);
        var after := Store(space, addr, p.image[..Pow2(aw)]);
        var next := addr + Pow2(aw);
        if next >= offset + Pow2(width) then WriteResult(Success, after, t + [x])
        else WriteWalk(fault, widthRules, access, fix, info, width, offset, caller, after,
                       Advance(access, info, RegisterWrite, plan, next), next, ShiftDown(p.image, Pow2(aw)), t + [x])
  }

  /** One write of the walk that goes through and stays below Offset + 2^Width. */
  lemma {:induction false} WriteWalkStep(fault: Fault, widthRules: bool, access: AccessTable, fix: FixUp, info: DeviceInfo,
                      width: nat, offset: nat, caller: Image,
                      space: Space, plan: Plan, addr: nat, image: Image, done: seq<Access>, p: Prepared, next: nat)
    requires addr < offset + Pow2(width)
    requires p == Prepare(fault, space, widthRules, access, fix, info, width, offset, caller, plan.width, addr, image)
    requires p.status == Success && Outcome(fault, WriteOp, plan.width, addr, 1, true) == Success
    requires next == addr + Pow2(plan.width) < offset + Pow2(width)
    ensures plan.width <= 3 && Pow2(plan.width) <= 8
    ensures WriteWalk(fault, widthRules, access, fix, info, width, offset, caller, space, plan, addr, image, done)
         == WriteWalk(fault, widthRules, access, fix, info, width, offset, caller,
                      Store(space, addr, p.image[..Pow2(plan.width)]), Advance(access, info, RegisterWrite, plan, next),
                      next, ShiftDown(p.image, Pow2(plan.width)), (done + p.trace) + [Access(WriteOp, plan.width, addr, 1)])
  {
    Pow2AtMost8(plan.width);
  }

  /** The write that fails, or that reaches Offset + 2^Width, is the last of the walk. */
  lemma {:induction false} WriteWalkStop(fault: Fault, widthRules: bool, access: AccessTable, fix: FixUp, info: DeviceInfo,
                      width: nat, offset: nat, caller: Image,
                      space: Space, plan: Plan, addr: nat, image: Image, done: seq<Access>, p: Prepared, s: Status)
    requires addr < offset + Pow2(width)
    requires p == Prepare(fault, space, widthRules, access, fix, info, width, offset, caller, plan.width, addr, image)
    requires p.status == Success && s == Outcome(fault, WriteOp, plan.width, addr, 1, true)
    requires s != Success || addr + Pow2(plan.width) >= offset + Pow2(width)
    ensures s == Success ==> plan.width <= 3 && Pow2(plan.width) <= 8
    ensures WriteWalk(fault, widthRules, access, fix, info, width, offset, caller, space, plan, addr, image, done)
         == WriteResult(s, if s == Success then Store(space, addr, p.image[..Pow2(plan.width)]) else space,
                        (done + p.trace) + [Access(WriteOp, plan.width, addr, 1)])
  {
    if s == Success {
      Pow2AtMost8(plan.width);
    }
  }

  /** WriteConfigData: with an access-width record for the register, the walk above from
      Offset rounded down to the record's access size, with Data the caller's 8 bytes;
      otherwise one direct write of the caller's 2^Width bytes. */
  function WriteConfig(fault: Fault, space: Space, widthRules: bool, access: AccessTable, fix: FixUp,
                       info: DeviceInfo, width: nat, offset: nat, caller: Image): (r: WriteResult)
    ensures |r.trace| > 0
  {
    if WidthRuleApplies(widthRules, access, info, RegisterWrite, width, offset) then
      var plan := StartPlan(access(info, RegisterWrite, offset % 256, width).data, width);
      WriteWalk(fault, widthRules, access, fix, info, width, offset, caller,
                space, plan, AccessAddress(plan, offset), caller, [])
    else
      var s := Outcome(fault, WriteOp, width, offset, 1, true);
      Pow2AtMost8(if s == Success then width else 0);
      WriteResult(s, if s == Success then Store(space, offset, caller[..Pow2(width)]) else space,
                  [Access(WriteOp, width, offset, 1)])
  }

  /** The block of the write loop that runs when the access is wider than the caller's:
      Data after it, and the reads it makes, are Prepare's. */
  method PrepareData(dev: PciConfigTransport, widthRules: bool, access: AccessTable, fix: FixUp,
                     info: DeviceInfo, width: nat, offset: nat, caller: Image, aw: nat, addr: nat,
                     image: Image)
    returns (status: Status, data: Image)
    modifies dev
    ensures var p := Prepare(dev.fault, old(dev.space), widthRules, access, fix, info, width, offset, caller,
                             aw, addr, image);
            status == p.status && data == p.image && dev.log == old(dev.log) + p.trace
    ensures dev.space == old(dev.space)
  {
    data := image;
    status := Success;
    if aw > width {
      var rd;
      status, rd := ReadConfigData(dev, widthRules, access, info, aw, addr);
      if status != Success {
        return;
      }
      Pow2AtMost8(aw);
      data := fix(RegisterRead, aw, addr % 256, rd + data[|rd|..]);
      if width <= 1 && addr <= offset {
        data := MergeLane(data, offset - addr, caller[..Pow2(width)]);
      }
      data := fix(RegisterWrite, aw, addr * 255, data);
    }
  }

  /** One access of the write loop: the Prepare block, then a write of one unit of the
      access width at addr when Prepare went through. */
  method WriteUnit(dev: PciConfigTransport, widthRules: bool, access: AccessTable, fix: FixUp,
                   info: DeviceInfo, width: nat, offset: nat, caller: Image, aw: nat, addr: nat, image: Image)
    returns (status: Status, data: Image, ghost p: Prepared)
    modifies dev
    ensures p == Prepare(dev.fault, old(dev.space), widthRules, access, fix, info, width, offset, caller,
                         aw, addr, image)
    ensures data == p.image
    ensures p.status != Success ==> status == p.status && dev.log == old(dev.log) + p.trace
    ensures p.status == Success ==>
              status == Outcome(dev.fault, WriteOp, aw, addr, 1, true) &&
              dev.log == old(dev.log) + (p.trace + [Access(WriteOp, aw, addr, 1)])
    ensures status != Success ==> dev.space == old(dev.space)
    ensures status == Success ==> Pow2(aw) <= 8 && dev.space == Store(old(dev.space), addr, p.image[..Pow2(aw)])
  {
    p := Prepare(dev.fault, dev.space, widthRules, access, fix, info, width, offset, caller, aw, addr, image);
    status, data := PrepareData(dev, widthRules, access, fix, info, width, offset, caller, aw, addr, image);
    if status != Success {
      return;
    }
    Pow2AtMost8(if aw <= 3 then aw else 0);
    status := dev.Write(aw, addr, 1, Some(data));
    AppendAssoc(old(dev.log), p.trace, [Access(WriteOp, aw, addr, 1)]);
  }

  /** The write loop of WriteConfigData's access-width path. */
  method WriteLoop(dev: PciConfigTransport, widthRules: bool, access: AccessTable, fix: FixUp,
                   info: DeviceInfo, width: nat, offset: nat, caller: Image, plan0: Plan, start: nat)
    returns (status: Status)
    requires start < offset + Pow2(width)
    modifies dev
    ensures var r := WriteWalk(dev.fault, widthRules, access, fix, info, width, offset, caller,
                               old(dev.space), plan0, start, caller, []);
            status == r.status && dev.space == r.space && dev.log == old(dev.log) + r.trace
  {
    var plan := plan0;
    var addr := start;
    var data: Image := caller;
    ghost var done: seq<Access> := [];
    ghost var whole := WriteWalk(dev.fault, widthRules, access, fix, info, width, offset, caller,
                                 dev.space, plan, addr, data, done);
    while true
      invariant addr < offset + Pow2(width)
      invariant dev.log == old(dev.log) + done
      invariant whole == WriteWalk(dev.fault, widthRules, access, fix, info, width, offset, caller,
                                   dev.space, plan, addr, data, done)
      decreases offset + Pow2(width) - addr
    {
      ghost var image, prior, before := data, done, dev.space;
      ghost var p;
      status, data, p := WriteUnit(dev, widthRules, access, fix, info, width, offset, caller, plan.width, addr, data);
      ghost var x := Access(WriteOp, plan.width, addr, 1);
      var next := addr + Pow2(plan.width);
      if status != Success || next >= offset + Pow2(width) {
        if p.status != Success {
          AppendAssoc(old(dev.log), done, p.trace);
          done := done + p.trace;
        } else {
          AppendAssoc(old(dev.log), done, p.trace + [x]);
          AppendAssoc(done, p.trace, [x]);
          done := done + p.trace + [x];
          WriteWalkStop(dev.fault, widthRules, access, fix, info, width, offset, caller,
                        before, plan, addr, image, prior, p, status);
        }
        return;
      }
      AppendAssoc(old(dev.log), done, p.trace + [x]);
      AppendAssoc(done, p.trace, [x]);
      done := done + p.trace + [x];
      WriteWalkStep(dev.fault, widthRules, access, fix, info, width, offset, caller,
                    before, plan, addr, image, prior, p, next);
      data := ShiftDown(data, Pow2(plan.width));
      plan := Advance(access, info, RegisterWrite, plan, next);
      addr := next;
    }
  }

  /** WriteConfigData on a transport: status, configuration space and the accesses made
      are WriteConfig's. */
  method WriteConfigData(dev: PciConfigTransport, widthRules: bool, access: AccessTable, fix: FixUp,
                         info: DeviceInfo, width: nat, offset: nat, caller: Image)
    returns (status: Status)
    modifies dev
    ensures var r := WriteConfig(dev.fault, old(dev.space), widthRules, access, fix, info, width, offset, caller);
            status == r.status && dev.space == r.space && dev.log == old(dev.log) + r.trace
  {
    var first := access(info, RegisterWrite, offset % 256, width);
    if widthRules && first.status == Success {
      var plan := StartPlan(first.data, width);
      status := WriteLoop(dev, widthRules, access, fix, info, width, offset, caller, plan, AccessAddress(plan, offset));
    } else {
      Pow2AtMost8(if width <= 3 then width else 0);
      status := dev.Write(width, offset, 1, Some(caller));
    }
  }
}
