/** What ReadConfigData and WriteConfigData achieve: how their physical accesses tile the
    register range, when the access-width path agrees with a direct access, how a
    read-modify-write keeps the neighbouring bytes, and where the write fix-up looks. */
module AccessLemmas {
  import opened EfiStatus
  import opened Bits
  import opened Transport
  import opened Quirks
  import opened ConfigAccess

  // ---------------------------------------------------------------------------
  // Reads
  // ---------------------------------------------------------------------------


  /** On the access-width path the reads start at Offset rounded down to the record's
      access size and tile the registers up to Offset + 2^Width; the result is the last
      read's failure, or, when every read went through, Success for an 8-, 16- or 32-bit
      width and UNSUPPORTED otherwise. */
  lemma ReadConfigTiles(fault: Fault, space: Space, widthRules: bool, access: AccessTable, info: DeviceInfo,
                        width: nat, offset: nat)
    requires WidthRuleApplies(widthRules, access, info, RegisterRead, width, offset)
    ensures var plan := StartPlan(access(info, RegisterRead, offset % 256, width).data, width);
            var r := ReadConfig(fault, space, widthRules, access, info, width, offset);
            && r.trace[0] == Access(ReadOp, plan.width, AccessAddress(plan, offset), 1)
            && Covers(fault, ReadOp, offset + Pow2(width), r.trace)
            && (Verdict(fault, Last(r.trace)) != Success ==> r.status == Verdict(fault, Last(r.trace)))
            && (Verdict(fault, Last(r.trace)) == Success ==> r.status == if width <= 2 then Success else Unsupported)
  {
    var plan := StartPlan(access(info, RegisterRead, offset % 256, width).data, width);
    var start := AccessAddress(plan, offset);
    var w := ReadWalk(fault, access, info, offset + Pow2(width), plan, start, []);
    WalkFromStart(fault, access, info, offset + Pow2(width), plan, start, w);
    ReadConfigIsWalk(fault, space, widthRules, access, info, width, offset, plan, start, w);
  }

  /** On the access-width path ReadConfig makes the walk's reads and reports its status. */
  lemma ReadConfigIsWalk(fault: Fault, space: Space, widthRules: bool, access: AccessTable, info: DeviceInfo,
                         width: nat, offset: nat, plan: Plan, start: nat, w: Walk)
    requires WidthRuleApplies(widthRules, access, info, RegisterRead, width, offset)
    requires plan == StartPlan(access(info, RegisterRead, offset % 256, width).data, width)
    requires start == AccessAddress(plan, offset)
    requires w == ReadWalk(fault, access, info, offset + Pow2(width), plan, start, [])
    ensures var r := ReadConfig(fault, space, widthRules, access, info, width, offset);
            && r.trace == w.trace
            && (w.status != Success ==> r.status == w.status)
            && (w.status == Success ==> r.status == if width <= 2 then Success else Unsupported)
  {
  }

  /** A walk begun with no earlier reads starts at its first address and tiles up to `end`. */
  lemma WalkFromStart(fault: Fault, access: AccessTable, info: DeviceInfo, end: nat, plan: Plan, start: nat, w: Walk)
    requires start < end && w == ReadWalk(fault, access, info, end, plan, start, [])
    ensures w.trace[0] == Access(ReadOp, plan.width, start, 1)
    ensures Covers(fault, ReadOp, end, w.trace) && w.status == Verdict(fault, Last(w.trace))
  {
    ReadWalkCovers(fault, access, info, end, plan, start, [], w);
    assert w.trace[0..] == w.trace;
  }

  /** What a successful ReadConfigData hands back: with an access-width record, an 8-,
      16- or 32-bit width and the 2^Width bytes from Offset rounded down to the record's
      access size; otherwise the 2^Width bytes at Offset. */
  lemma ReadConfigReturns(fault: Fault, space: Space, widthRules: bool, access: AccessTable, info: DeviceInfo,
                          width: nat, offset: nat)
    requires ReadConfig(fault, space, widthRules, access, info, width, offset).status == Success
    ensures var r := ReadConfig(fault, space, widthRules, access, info, width, offset);
            if WidthRuleApplies(widthRules, access, info, RegisterRead, width, offset) then
              var plan := StartPlan(access(info, RegisterRead, offset % 256, width).data, width);
              width <= 2 && r.data == Span(space, AccessAddress(plan, offset), Pow2(width))
            else
              r.data == Span(space, offset, Pow2(width))
  {
  }

  /** A 32-bit read at a register five bytes past a 64-bit boundary, under a record that
      asks for 64-bit reads, reads more than eight bytes: the first read covers only up to
      Offset + 3, so a second one follows, and both land one after the other from the
      address TempBuffer stands for. */
  lemma ReadWalkOverrunsTempBuffer(fault: Fault, space: Space, widthRules: bool, access: AccessTable,
                                   info: DeviceInfo, offset: nat)
    requires WidthRuleApplies(widthRules, access, info, RegisterRead, 2, offset)
    requires StartPlan(access(info, RegisterRead, offset % 256, 2).data, 2).width == 3
    requires offset % 8 == 5
    requires ReadConfig(fault, space, widthRules, access, info, 2, offset).status == Success
    ensures var t := ReadConfig(fault, space, widthRules, access, info, 2, offset).trace;
            && t[0] == Access(ReadOp, 3, offset - 5, 1)
            && |t| >= 2
            && Stop(Last(t)) >= t[0].addr + 9
  {
    var plan := StartPlan(access(info, RegisterRead, offset % 256, 2).data, 2);
    var t := ReadConfig(fault, space, widthRules, access, info, 2, offset).trace;
    ReadConfigTiles(fault, space, widthRules, access, info, 2, offset);
    assert Pow2(2) == 4 && Pow2(3) == 8;
    CoversVerdicts(fault, ReadOp, offset + 4, t);
  }

  /** When Offset is a multiple of the record's access size, the access-width path returns
      the bytes a direct read of the register returns. */
  lemma AlignedQuirkReadIsDirect(fault: Fault, space: Space, widthRules: bool, access: AccessTable,
                                 info: DeviceInfo, width: nat, offset: nat)
    requires WidthRuleApplies(widthRules, access, info, RegisterRead, width, offset)
    requires AccessAddress(StartPlan(access(info, RegisterRead, offset % 256, width).data, width), offset) == offset
    requires ReadConfig(fault, space, widthRules, access, info, width, offset).status == Success
    ensures ReadConfig(fault, space, widthRules, access, info, width, offset).data == Span(space, offset, Pow2(width))
  {
  }

  /** A byte read at register 1 of a function whose record asks for 32-bit reads returns
      the byte of register 0: the reads start at the aligned address and the low byte of
      what they gathered is handed back, without a shift by Offset - AccessAddress. */
  lemma MisalignedByteReadReturnsRegisterZero(fault: Fault, space: Space, access: AccessTable, info: DeviceInfo)
    requires access(info, RegisterRead, 1, 0) == Lookup(Success, AccessQuirk(2, NoCare))
    requires ReadConfig(fault, space, true, access, info, 0, 1).status == Success
    ensures ReadConfig(fault, space, true, access, info, 0, 1).data == [Peek(space, 0)]
  {
    var plan := StartPlan(AccessQuirk(2, NoCare), 0);
    assert plan.width == 2;
    assert AccessAddress(plan, 1) == 0 by {
      assert Pow2(2) == 4;
    }
    ReadConfigReturns(fault, space, true, access, info, 0, 1);
    assert Pow2(0) == 1;
  }

  // ---------------------------------------------------------------------------
  // Direct accesses
  // ---------------------------------------------------------------------------

  /** Without access-width records, a register written and read back holds the caller's
      2^Width bytes. */
  lemma WriteThenReadDirect(fault: Fault, space: Space, widthRules: bool, access: AccessTable, fix: FixUp,
                            info: DeviceInfo, width: nat, offset: nat, caller: Image)
    requires !WidthRuleApplies(widthRules, access, info, RegisterWrite, width, offset)
    requires !WidthRuleApplies(widthRules, access, info, RegisterRead, width, offset)
    requires WriteConfig(fault, space, widthRules, access, fix, info, width, offset, caller).status == Success
    requires Outcome(fault, ReadOp, width, offset, 1, true) == Success
    ensures var after := WriteConfig(fault, space, widthRules, access, fix, info, width, offset, caller).space;
            ReadConfig(fault, after, widthRules, access, info, width, offset).data == caller[..Pow2(width)]
  {
    Pow2AtMost8(width);
    SpanOfStore(space, offset, caller[..Pow2(width)]);
  }

  // ---------------------------------------------------------------------------
  // Read-modify-write
  // ---------------------------------------------------------------------------

  /** A fix-up that leaves every Data image as it is for this access. */
  ghost predicate Transparent(fix: FixUp, dir: AccessType, w: nat, off: nat)
  {
    forall d: Image :: fix(dir, w, off, d) == d
  }

  /** Without a register-value record for the register, UpdateConfigData changes nothing. */
  lemma MissingValueRecordIsTransparent(values: ValueTable, info: DeviceInfo, dir: AccessType, w: nat, off: nat)
    requires values(info, dir, off % 256).status != Success
    ensures Transparent(FixUpOf(values, info), dir, w, off)
  {
    forall d: Image
      ensures FixUpOf(values, info)(dir, w, off, d) == d
    {
    }
  }

  /** An 8- or 16-bit write through a wider access: the unit written holds the caller's
      bytes at byte Offset - AccessAddress and, everywhere else, the register as it was
      read back (after the read fix-up), when the write fix-up changes nothing. */
  lemma QuirkedWriteMergesLane(fault: Fault, space: Space, widthRules: bool, access: AccessTable, fix: FixUp,
                               info: DeviceInfo, width: nat, offset: nat, caller: Image, aw: nat, addr: nat,
                               image: Image, p: Prepared)
    requires p == Prepare(fault, space, widthRules, access, fix, info, width, offset, caller, aw, addr, image)
    requires p.status == Success && width < aw && width <= 1
    requires addr <= offset && offset + Pow2(width) <= addr + Pow2(aw)
    requires Transparent(fix, RegisterWrite, aw, addr * 255)
    ensures var rd := ReadConfig(fault, space, widthRules, access, info, aw, addr);
            var d1 := fix(RegisterRead, aw, addr % 256, rd.data + image[|rd.data|..]);
            && rd.status == Success
            && p.image[offset - addr..offset - addr + Pow2(width)] == caller[..Pow2(width)]
            && forall k :: 0 <= k < 8 && !(offset - addr <= k < offset - addr + Pow2(width)) ==> p.image[k] == d1[k]
  {
    var rd := ReadConfig(fault, space, widthRules, access, info, aw, addr);
    Pow2AtMost8(aw);
    var d1 := fix(RegisterRead, aw, addr % 256, rd.data + image[|rd.data|..]);
    var d2 := MergeLane(d1, offset - addr, caller[..Pow2(width)]);
    assert p.image == fix(RegisterWrite, aw, addr * 255, d2);
    MergeLaneBytes(d1, offset - addr, caller[..Pow2(width)]);
  }

  // ---------------------------------------------------------------------------
  // The write walk
  // ---------------------------------------------------------------------------

  /** The writes of an access trace, in order. */
  ghost function Writes(t: seq<Access>): (r: seq<Access>)
    ensures forall k :: 0 <= k < |r| ==> r[k].dir == WriteOp
    decreases |t|
  {
    if |t| == 0 then []
    else (if t[0].dir == WriteOp then [t[0]] else []) + Writes(t[1..])
  }

  lemma {:induction false} WritesAppend(a: seq<Access>, b: seq<Access>)
    ensures Writes(a + b) == Writes(a) + Writes(b)
    decreases |a|
  {
    if |a| > 0 {
      WritesAppend(a[1..], b);
      assert (a + b)[1..] == a[1..] + b;
    } else {
      assert a + b == b;
    }
  }

  lemma {:induction false} NoWrites(t: seq<Access>)
    requires forall k :: 0 <= k < |t| ==> t[k].dir == ReadOp
    ensures Writes(t) == []
    decreases |t|
  {
    if |t| > 0 {
      NoWrites(t[1..]);
    }
  }

  /** Every access of a run is a single unit in the run's direction. */
  lemma {:induction false} CoversUnits(fault: Fault, d: Direction, end: nat, t: seq<Access>)
    requires Covers(fault, d, end, t)
    ensures forall k :: 0 <= k < |t| ==> t[k].dir == d && t[k].count == 1
    decreases |t|
  {
    if |t| > 1 {
      CoversUnits(fault, d, end, t[1..]);
      assert forall k :: 0 < k < |t| ==> t[k] == t[1..][k - 1];
    }
  }

  /** ReadConfigData only reads, on either path. */
  lemma ReadConfigOnlyReads(fault: Fault, space: Space, widthRules: bool, access: AccessTable, info: DeviceInfo,
                            width: nat, offset: nat)
    ensures var t := ReadConfig(fault, space, widthRules, access, info, width, offset).trace;
            (forall k :: 0 <= k < |t| ==> t[k].dir == ReadOp) && Writes(t) == []
  {
    var t := ReadConfig(fault, space, widthRules, access, info, width, offset).trace;
    if WidthRuleApplies(widthRules, access, info, RegisterRead, width, offset) {
      ReadConfigTiles(fault, space, widthRules, access, info, width, offset);
      CoversUnits(fault, ReadOp, offset + Pow2(width), t);
    }
    NoWrites(t);
  }

  /** Single-unit writes below `end`, each one after the first starting where the one
      before it stopped, and every one but the last gone through short of `end`. */
  ghost predicate Tiling(fault: Fault, end: nat, ws: seq<Access>)
  {
    && (forall k :: 0 <= k < |ws| ==> Unit(WriteOp, end, ws[k]))
    && (forall k :: 0 < k < |ws| ==> Linked(fault, end, ws[k - 1], ws[k]))
  }

  /** Address a lies in one of the writes ws that went through. */
  ghost predicate Written(fault: Fault, ws: seq<Access>, a: nat)
  {
    exists k :: 0 <= k < |ws| && Verdict(fault, ws[k]) == Success && ws[k].addr <= a < Stop(ws[k])
  }

  /** A write that went through and stopped short of `end`, in front of a tiling that
      starts where it stopped. */
  lemma TilingCons(fault: Fault, end: nat, x: Access, ws: seq<Access>)
    requires Tiling(fault, end, ws) && Unit(WriteOp, end, x)
    requires |ws| > 0 ==> Linked(fault, end, x, ws[0])
    ensures Tiling(fault, end, [x] + ws)
  {
    var t := [x] + ws;
    assert forall k :: 0 < k < |t| ==> t[k] == ws[k - 1];
  }

  /** What the write walk leaves after the accesses `done`, whose first write is `first`:
      its writes tile the registers towards `end`; it succeeds exactly when the last write
      went through and reached `end`; otherwise it stopped on a failed write, whose
      verdict it returns, or on a failed read-back; and configuration space changes only
      where a write went through. Lemmas state it as `WalkShape(...) == true`, one fact
      rather than its seven conjuncts, which keeps their proofs small. */
  ghost predicate WalkShape(fault: Fault, end: nat, space: Space, first: Access, done: seq<Access>, r: WriteResult)
  {
    && |r.trace| > |done| && r.trace[..|done|] == done
    && var ws := Writes(r.trace[|done|..]);
       && (|ws| > 0 ==> ws[0] == first)
       && Tiling(fault, end, ws)
       && (r.status == Success <==> |ws| > 0 && Verdict(fault, Last(ws)) == Success && Stop(Last(ws)) >= end)
       && (|ws| > 0 && Verdict(fault, Last(ws)) != Success ==>
             r.status == Verdict(fault, Last(ws)) && Last(r.trace) == Last(ws))
       && (r.status != Success && (|ws| == 0 || Verdict(fault, Last(ws)) == Success) ==> Last(r.trace).dir == ReadOp)
       && (forall a :: !Written(fault, ws, a) ==> Peek(r.space, a) == Peek(space, a))
  }

  /** A walk that stops on a failed read-back before writing anything. */
  lemma ShapeOfFailedReadBack(fault: Fault, end: nat, space: Space, first: Access, done: seq<Access>,
                              readBacks: seq<Access>, r: WriteResult)
    requires |readBacks| > 0 && forall k :: 0 <= k < |readBacks| ==> readBacks[k].dir == ReadOp
    requires r.status != Success && r.space == space && r.trace == done + readBacks
    ensures WalkShape(fault, end, space, first, done, r)
  {
    assert r.trace[|done|..] == readBacks;
    NoWrites(readBacks);
  }

  /** A walk whose next write is its last: it fails, or it reaches `end`. */
  lemma ShapeOfLastWrite(fault: Fault, end: nat, space: Space, done: seq<Access>, readBacks: seq<Access>,
                         x: Access, b: seq<bv8>, r: WriteResult)
    requires Unit(WriteOp, end, x) && |b| == Pow2(x.width)
    requires forall k :: 0 <= k < |readBacks| ==> readBacks[k].dir == ReadOp
    requires Verdict(fault, x) == Success ==> Stop(x) >= end
    requires r.status == Verdict(fault, x) && r.trace == (done + readBacks) + [x]
    requires r.space == if r.status == Success then Store(space, x.addr, b) else space
    ensures WalkShape(fault, end, space, x, done, r)
  {
    assert r.trace[|done|..] == readBacks + [x];
    NoWrites(readBacks);
    WritesAppend(readBacks, [x]);
    var ws := Writes(r.trace[|done|..]);
    assert ws == [x];
    forall a: nat | !Written(fault, ws, a)
      ensures Peek(r.space, a) == Peek(space, a)
    {
      if r.status == Success {
        if x.addr <= a < Stop(x) {
          assert ws[0] == x;
        }
        PeekStore(space, x.addr, b, a);
      }
    }
  }

  /** A write that goes through short of `end`, in front of the rest of the walk. */
  lemma ShapeOfStep(fault: Fault, end: nat, space: Space, done: seq<Access>, readBacks: seq<Access>,
                    x: Access, b: seq<bv8>, next: Access, r: WriteResult)
    requires Unit(WriteOp, end, x) && |b| == Pow2(x.width)
    requires forall k :: 0 <= k < |readBacks| ==> readBacks[k].dir == ReadOp
    requires Verdict(fault, x) == Success && Stop(x) < end && next.addr == Stop(x)
    requires WalkShape(fault, end, Store(space, x.addr, b), next, (done + readBacks) + [x], r) == true
    ensures WalkShape(fault, end, space, x, done, r) == true
  {
    var done' := (done + readBacks) + [x];
    StepWrites(done, readBacks, x, r.trace);
    var ws' := Writes(r.trace[|done'|..]);
    TilingCons(fault, end, x, ws');
    if |ws'| > 0 {
      assert Last([x] + ws') == Last(ws');
    }
    SpaceCons(fault, space, x, b, ws', r.space);
  }

  /** The writes after `done` are x followed by the writes after x. */
  lemma StepWrites(done: seq<Access>, readBacks: seq<Access>, x: Access, t: seq<Access>)
    requires forall k :: 0 <= k < |readBacks| ==> readBacks[k].dir == ReadOp
    requires x.dir == WriteOp
    requires |t| > |done| + |readBacks| + 1 && t[..|done| + |readBacks| + 1] == (done + readBacks) + [x]
    ensures |t| > |done| && t[..|done|] == done
    ensures Writes(t[|done|..]) == [x] + Writes(t[|done| + |readBacks| + 1..])
  {
    var n := |done| + |readBacks| + 1;
    var rest := t[n..];
    assert t == ((done + readBacks) + [x]) + rest by {
      assert t == t[..n] + t[n..];
    }
    assert t[|done|..] == (readBacks + [x]) + rest;
    NoWrites(readBacks);
    WritesAppend(readBacks + [x], rest);
    WritesAppend(readBacks, [x]);
  }

  /** An address outside every write of [x] + ws that went through lies outside x
      and outside every write of ws that went through. */
  lemma WrittenCons(fault: Fault, x: Access, ws: seq<Access>, a: nat)
    requires Verdict(fault, x) == Success
    ensures !Written(fault, [x] + ws, a) ==> !(x.addr <= a < Stop(x)) && !Written(fault, ws, a)
  {
    var t := [x] + ws;
    if x.addr <= a < Stop(x) {
      assert t[0] == x;
    }
    if Written(fault, ws, a) {
      var k :| 0 <= k < |ws| && Verdict(fault, ws[k]) == Success && ws[k].addr <= a < Stop(ws[k]);
      assert t[k + 1] == ws[k];
    }
  }

  /** Bytes the rest of the walk leaves alone after x stored b keep their value from
      before x, unless x wrote them. */
  lemma SpaceCons(fault: Fault, space: Space, x: Access, b: seq<bv8>, ws: seq<Access>, final: Space)
    requires Verdict(fault, x) == Success && |b| == Pow2(x.width)
    requires forall a :: !Written(fault, ws, a) ==> Peek(final, a) == Peek(Store(space, x.addr, b), a)
    ensures forall a :: !Written(fault, [x] + ws, a) ==> Peek(final, a) == Peek(space, a)
  {
    forall a: nat | !Written(fault, [x] + ws, a)
      ensures Peek(final, a) == Peek(space, a)
    {
      WrittenCons(fault, x, ws, a);
      PeekStore(space, x.addr, b, a);
    }
  }

  /** The write walk from addr on has WalkShape: its writes start with one unit of the
      plan's width at addr and tile the registers up to Offset + 2^Width. */
  lemma {:induction false} WriteWalkCovers(fault: Fault, widthRules: bool, access: AccessTable, fix: FixUp,
                                           info: DeviceInfo, width: nat, offset: nat, caller: Image,
                                           space: Space, plan: Plan, addr: nat, image: Image, done: seq<Access>,
                                           r: WriteResult)
    requires addr < offset + Pow2(width)
    requires r == WriteWalk(fault, widthRules, access, fix, info, width, offset, caller, space, plan, addr, image, done)
    ensures WalkShape(fault, offset + Pow2(width), space, Access(WriteOp, plan.width, addr, 1), done, r) == true
    decreases offset + Pow2(width) - addr, 1
  {
    var p := Prepare(fault, space, widthRules, access, fix, info, width, offset, caller, plan.width, addr, image);
    var next := addr + Pow2(plan.width);
    if p.status == Success && Outcome(fault, WriteOp, plan.width, addr, 1, true) == Success
       && next < offset + Pow2(width) {
      WriteWalkStep(fault, widthRules, access, fix, info, width, offset, caller, space, plan, addr, image, done, p, next);
      PrepareOnlyReads(fault, space, widthRules, access, fix, info, width, offset, caller, plan.width, addr, image);
      StepCovers(fault, widthRules, access, fix, info, width, offset, caller, space, plan, addr, image, done,
                 p.trace, p.image, r);
    } else {
      EndShape(fault, widthRules, access, fix, info, width, offset, caller, space, plan, addr, image, done, p, r);
    }
  }

  /** A write of the walk that goes through and stays below Offset + 2^Width, after
      the read-backs `readBacks` and with `written` as the image: the rest of the walk
      has WalkShape, and so has the walk from this write on. */
  lemma {:induction false} StepCovers(fault: Fault, widthRules: bool, access: AccessTable, fix: FixUp,
                                      info: DeviceInfo, width: nat, offset: nat, caller: Image,
                                      space: Space, plan: Plan, addr: nat, image: Image, done: seq<Access>,
                                      readBacks: seq<Access>, written: Image, r: WriteResult)
    requires forall k :: 0 <= k < |readBacks| ==> readBacks[k].dir == ReadOp
    requires Pow2(plan.width) <= 8 && Outcome(fault, WriteOp, plan.width, addr, 1, true) == Success
    requires addr + Pow2(plan.width) < offset + Pow2(width)
    requires r == WriteWalk(fault, widthRules, access, fix, info, width, offset, caller,
                            Store(space, addr, written[..Pow2(plan.width)]),
                            Advance(access, info, RegisterWrite, plan, addr + Pow2(plan.width)), addr + Pow2(plan.width),
                            ShiftDown(written, Pow2(plan.width)),
                            (done + readBacks) + [Access(WriteOp, plan.width, addr, 1)])
    ensures WalkShape(fault, offset + Pow2(width), space, Access(WriteOp, plan.width, addr, 1), done, r) == true
    decreases offset + Pow2(width) - addr, 0
  {
    var next := addr + Pow2(plan.width);
    var x := Access(WriteOp, plan.width, addr, 1);
    var b := written[..Pow2(plan.width)];
    var plan' := Advance(access, info, RegisterWrite, plan, next);
    WriteWalkCovers(fault, widthRules, access, fix, info, width, offset, caller, Store(space, addr, b),
                    plan', next, ShiftDown(written, Pow2(plan.width)), (done + readBacks) + [x], r);
    ShapeOfStep(fault, offset + Pow2(width), space, done, readBacks, x, b, Access(WriteOp, plan'.width, next, 1), r);
  }

  /** The walk's last step: a failed read-back, a failed write, or the write that
      reaches Offset + 2^Width. */
  lemma EndShape(fault: Fault, widthRules: bool, access: AccessTable, fix: FixUp,
                 info: DeviceInfo, width: nat, offset: nat, caller: Image,
                 space: Space, plan: Plan, addr: nat, image: Image, done: seq<Access>, p: Prepared, r: WriteResult)
    requires addr < offset + Pow2(width)
    requires p == Prepare(fault, space, widthRules, access, fix, info, width, offset, caller, plan.width, addr, image)
    requires p.status != Success || Outcome(fault, WriteOp, plan.width, addr, 1, true) != Success
             || addr + Pow2(plan.width) >= offset + Pow2(width)
    requires r == WriteWalk(fault, widthRules, access, fix, info, width, offset, caller, space, plan, addr, image, done)
    ensures WalkShape(fault, offset + Pow2(width), space, Access(WriteOp, plan.width, addr, 1), done, r) == true
  {
    var end := offset + Pow2(width);
    var aw := plan.width;
    ReadConfigOnlyReads(fault, space, widthRules, access, info, aw, addr);
    var x := Access(WriteOp, aw, addr, 1);
    var s := Outcome(fault, WriteOp, aw, addr, 1, true);
    if p.status != Success {
      ShapeOfFailedReadBack(fault, end, space, x, done, p.trace, r);
    } else {
      WriteWalkStop(fault, widthRules, access, fix, info, width, offset, caller, space, plan, addr, image, done, p, s);
      Pow2AtMost8(if s == Success then aw else 0);
      ShapeOfLastWrite(fault, end, space, done, p.trace, x, if s == Success then p.image[..Pow2(aw)] else Zeros(Pow2(aw)), r);
    }
  }

  /** The read-back before a write of the walk only reads. */
  lemma PrepareOnlyReads(fault: Fault, space: Space, widthRules: bool, access: AccessTable, fix: FixUp,
                         info: DeviceInfo, width: nat, offset: nat, caller: Image, aw: nat, addr: nat, image: Image)
    ensures var t := Prepare(fault, space, widthRules, access, fix, info, width, offset, caller, aw, addr, image).trace;
            forall k :: 0 <= k < |t| ==> t[k].dir == ReadOp
  {
    ReadConfigOnlyReads(fault, space, widthRules, access, info, aw, addr);
  }

  /** On the access-width path of WriteConfigData the writes start with one unit of the
      record's access size at Offset rounded down to it and tile the registers up to
      Offset + 2^Width; every write but the last went through; the result is Success
      exactly when the last write went through and reached Offset + 2^Width, and
      otherwise the failing write's or read-back's status; and configuration space
      changes only under the writes that went through. */
  lemma WriteConfigTiles(fault: Fault, space: Space, widthRules: bool, access: AccessTable, fix: FixUp,
                         info: DeviceInfo, width: nat, offset: nat, caller: Image)
    requires WidthRuleApplies(widthRules, access, info, RegisterWrite, width, offset)
    ensures var plan := StartPlan(access(info, RegisterWrite, offset % 256, width).data, width);
            WalkShape(fault, offset + Pow2(width), space, Access(WriteOp, plan.width, AccessAddress(plan, offset), 1), [],
                      WriteConfig(fault, space, widthRules, access, fix, info, width, offset, caller)) == true
  {
    var plan := StartPlan(access(info, RegisterWrite, offset % 256, width).data, width);
    WriteWalkCovers(fault, widthRules, access, fix, info, width, offset, caller, space, plan,
                    AccessAddress(plan, offset), caller, [],
                    WriteConfig(fault, space, widthRules, access, fix, info, width, offset, caller));
  }

  /** An 8- or 16-bit write under a record that asks for wider accesses, served by one
      unit, with no value record for the write: when it succeeds, the caller's bytes are
      at Offset and the other bytes of the unit are the read-back after its read fix-up
      (WriteConfigTiles says that nothing outside the unit changes). */
  lemma QuirkedWriteStoresCaller(fault: Fault, space: Space, widthRules: bool, access: AccessTable, fix: FixUp,
                                 info: DeviceInfo, width: nat, offset: nat, caller: Image, aw: nat, addr: nat,
                                 rd: ReadResult)
    requires WidthRuleApplies(widthRules, access, info, RegisterWrite, width, offset)
    requires aw == StartPlan(access(info, RegisterWrite, offset % 256, width).data, width).width
    requires addr == AccessAddress(StartPlan(access(info, RegisterWrite, offset % 256, width).data, width), offset)
    requires width <= 1 && width < aw && offset + Pow2(width) <= addr + Pow2(aw)
    requires Transparent(fix, RegisterWrite, aw, addr * 255)
    requires WriteConfig(fault, space, widthRules, access, fix, info, width, offset, caller).status == Success
    requires rd == ReadConfig(fault, space, widthRules, access, info, aw, addr) && |rd.data| <= 8
    ensures var r := WriteConfig(fault, space, widthRules, access, fix, info, width, offset, caller);
            var d1 := fix(RegisterRead, aw, addr % 256, rd.data + caller[|rd.data|..]);
            && rd.status == Success
            && Span(r.space, offset, Pow2(width)) == caller[..Pow2(width)]
            && (forall k :: 0 <= k < 8 && k < Pow2(aw) && !(offset - addr <= k < offset - addr + Pow2(width)) ==>
                  Peek(r.space, addr + k) == d1[k])
  {
    var p := Prepare(fault, space, widthRules, access, fix, info, width, offset, caller, aw, addr, caller);
    SingleUnitWrite(fault, space, widthRules, access, fix, info, width, offset, caller, aw, addr);
    QuirkedWriteMergesLane(fault, space, widthRules, access, fix, info, width, offset, caller, aw, addr, caller, p);
    UnitBytes(space, addr, p.image, Pow2(aw), offset - addr, Pow2(width), caller,
              fix(RegisterRead, aw, addr % 256, rd.data + caller[|rd.data|..]),
              WriteConfig(fault, space, widthRules, access, fix, info, width, offset, caller).space, offset);
  }

  /** Offset is a multiple of the access size the read record asks for, or no read
      record applies. */
  predicate ReadAligned(widthRules: bool, access: AccessTable, info: DeviceInfo, width: nat, offset: nat)
  {
    WidthRuleApplies(widthRules, access, info, RegisterRead, width, offset) ==>
      AccessAddress(StartPlan(access(info, RegisterRead, offset % 256, width).data, width), offset) == offset
  }

  /** The write of QuirkedWriteStoresCaller read back at the same width: when Offset is
      aligned for the read, a successful read returns the bytes the caller wrote. */
  lemma QuirkedWriteThenRead(fault: Fault, space: Space, widthRules: bool, access: AccessTable, fix: FixUp,
                             info: DeviceInfo, width: nat, offset: nat, caller: Image, aw: nat, addr: nat)
    requires WidthRuleApplies(widthRules, access, info, RegisterWrite, width, offset)
    requires aw == StartPlan(access(info, RegisterWrite, offset % 256, width).data, width).width
    requires addr == AccessAddress(StartPlan(access(info, RegisterWrite, offset % 256, width).data, width), offset)
    requires width <= 1 && width < aw && offset + Pow2(width) <= addr + Pow2(aw)
    requires Transparent(fix, RegisterWrite, aw, addr * 255)
    requires WriteConfig(fault, space, widthRules, access, fix, info, width, offset, caller).status == Success
    requires ReadAligned(widthRules, access, info, width, offset)
    requires ReadConfig(fault, WriteConfig(fault, space, widthRules, access, fix, info, width, offset, caller).space,
                        widthRules, access, info, width, offset).status == Success
    ensures ReadConfig(fault, WriteConfig(fault, space, widthRules, access, fix, info, width, offset, caller).space,
                       widthRules, access, info, width, offset).data == caller[..Pow2(width)]
  {
    var rd := ReadConfig(fault, space, widthRules, access, info, aw, addr);
    if rd.status == Success {
      Pow2AtMost8(aw);
    }
    QuirkedWriteStoresCaller(fault, space, widthRules, access, fix, info, width, offset, caller, aw, addr, rd);
    var after := WriteConfig(fault, space, widthRules, access, fix, info, width, offset, caller).space;
    ReadConfigReturns(fault, after, widthRules, access, info, width, offset);
  }

  /** A byte written to register 1 of a function whose records ask for 32-bit reads and
      writes, and read back as a byte, comes back as the byte register 0 held before the
      write, not as the caller's byte: the write stores the caller's byte at register 1,
      but the read hands back the byte at AccessAddress, register 0. */
  lemma MisalignedWriteThenReadMissesCaller(fault: Fault, space: Space, access: AccessTable, fix: FixUp,
                                            info: DeviceInfo, caller: Image)
    requires access(info, RegisterWrite, 1, 0) == Lookup(Success, AccessQuirk(2, NoCare))
    requires access(info, RegisterRead, 1, 0) == Lookup(Success, AccessQuirk(2, NoCare))
    requires Transparent(fix, RegisterWrite, 2, 0) && Transparent(fix, RegisterRead, 2, 0)
    requires WriteConfig(fault, space, true, access, fix, info, 0, 1, caller).status == Success
    requires ReadConfig(fault, WriteConfig(fault, space, true, access, fix, info, 0, 1, caller).space,
                        true, access, info, 0, 1).status == Success
    ensures var back := ReadConfig(fault, WriteConfig(fault, space, true, access, fix, info, 0, 1, caller).space,
                                   true, access, info, 0, 1).data;
            back == [Peek(space, 0)] && (Peek(space, 0) != caller[0] ==> back != caller[..1])
  {
    var plan := StartPlan(AccessQuirk(2, NoCare), 0);
    assert plan.width == 2 && Pow2(2) == 4 && Pow2(0) == 1;
    assert AccessAddress(plan, 1) == 0;
    var rd := ReadConfig(fault, space, true, access, info, 2, 0);
    if rd.status == Success {
      Pow2AtMost8(2);
      ReadConfigReturns(fault, space, true, access, info, 2, 0);
    }
    QuirkedWriteStoresCaller(fault, space, true, access, fix, info, 0, 1, caller, 2, 0, rd);
    var after := WriteConfig(fault, space, true, access, fix, info, 0, 1, caller).space;
    assert Peek(after, 0) == Peek(space, 0);
    MisalignedByteReadReturnsRegisterZero(fault, after, access, info);
  }

  /** With the copy-out taken from Offset (ShiftedReadConfig), the write of
      QuirkedWriteStoresCaller read back at the same width returns the caller's bytes at
      every Offset, aligned or not. */
  lemma ShiftedReadAfterQuirkedWrite(fault: Fault, space: Space, widthRules: bool, access: AccessTable, fix: FixUp,
                                     info: DeviceInfo, width: nat, offset: nat, caller: Image, aw: nat, addr: nat)
    requires WidthRuleApplies(widthRules, access, info, RegisterWrite, width, offset)
    requires aw == StartPlan(access(info, RegisterWrite, offset % 256, width).data, width).width
    requires addr == AccessAddress(StartPlan(access(info, RegisterWrite, offset % 256, width).data, width), offset)
    requires width <= 1 && width < aw && offset + Pow2(width) <= addr + Pow2(aw)
    requires Transparent(fix, RegisterWrite, aw, addr * 255)
    requires WriteConfig(fault, space, widthRules, access, fix, info, width, offset, caller).status == Success
    requires ShiftedReadConfig(fault, WriteConfig(fault, space, widthRules, access, fix, info, width, offset, caller).space,
                               widthRules, access, info, width, offset).status == Success
    ensures ShiftedReadConfig(fault, WriteConfig(fault, space, widthRules, access, fix, info, width, offset, caller).space,
                              widthRules, access, info, width, offset).data == caller[..Pow2(width)]
  {
    var rd := ReadConfig(fault, space, widthRules, access, info, aw, addr);
    if rd.status == Success {
      Pow2AtMost8(aw);
    }
    QuirkedWriteStoresCaller(fault, space, widthRules, access, fix, info, width, offset, caller, aw, addr, rd);
  }

  /** A successful access-width write served by one unit stores the low 2^AccessWidth
      bytes of the Data Prepare produced, at AccessAddress. */
  lemma SingleUnitWrite(fault: Fault, space: Space, widthRules: bool, access: AccessTable, fix: FixUp,
                        info: DeviceInfo, width: nat, offset: nat, caller: Image, aw: nat, addr: nat)
    requires WidthRuleApplies(widthRules, access, info, RegisterWrite, width, offset)
    requires aw == StartPlan(access(info, RegisterWrite, offset % 256, width).data, width).width
    requires addr == AccessAddress(StartPlan(access(info, RegisterWrite, offset % 256, width).data, width), offset)
    requires offset + Pow2(width) <= addr + Pow2(aw)
    requires WriteConfig(fault, space, widthRules, access, fix, info, width, offset, caller).status == Success
    ensures var p := Prepare(fault, space, widthRules, access, fix, info, width, offset, caller, aw, addr, caller);
            && p.status == Success && Pow2(aw) <= 8
            && WriteConfig(fault, space, widthRules, access, fix, info, width, offset, caller).space
               == Store(space, addr, p.image[..Pow2(aw)])
  {
    var plan := StartPlan(access(info, RegisterWrite, offset % 256, width).data, width);
    var p := Prepare(fault, space, widthRules, access, fix, info, width, offset, caller, aw, addr, caller);
    var s := Outcome(fault, WriteOp, aw, addr, 1, true);
    assert p.status == Success;
    WriteWalkStop(fault, widthRules, access, fix, info, width, offset, caller, space, plan, addr, caller, [], p, s);
  }

  /** The bytes a unit write of `image`'s first n bytes at addr leaves: the lane of m
      bytes at addr + lane holds the caller's bytes, and the unit's other bytes are d's. */
  lemma UnitBytes(space: Space, addr: nat, image: Image, n: nat, lane: nat, m: nat, caller: Image, d: Image,
                  final: Space, at: nat)
    requires n <= 8 && lane + m <= n && m <= 8
    requires image[lane..lane + m] == caller[..m]
    requires forall k :: 0 <= k < 8 && !(lane <= k < lane + m) ==> image[k] == d[k]
    requires final == Store(space, addr, image[..n]) && at == addr + lane
    ensures Span(final, at, m) == caller[..m]
    ensures forall k :: 0 <= k < 8 && k < n && !(lane <= k < lane + m) ==> Peek(final, addr + k) == d[k]
  {
    SpanInsideStore(space, addr, image[..n], lane, m);
    forall k | 0 <= k < 8 && k < n
      ensures Peek(final, addr + k) == image[k]
    {
      StoreAt(space, addr, image[..n], addr + k);
    }
  }

  /** From the second unit on, a walk for a 32-bit or wider write does not look at the
      caller's value: Data alone carries what is left to write. */
  lemma {:induction false} WriteWalkIgnoresCaller(fault: Fault, widthRules: bool, access: AccessTable, fix: FixUp,
                                                  info: DeviceInfo, width: nat, offset: nat, c1: Image, c2: Image,
                                                  space: Space, plan: Plan, addr: nat, image: Image, done: seq<Access>)
    requires 2 <= width && addr < offset + Pow2(width)
    ensures WriteWalk(fault, widthRules, access, fix, info, width, offset, c1, space, plan, addr, image, done)
         == WriteWalk(fault, widthRules, access, fix, info, width, offset, c2, space, plan, addr, image, done)
    decreases offset + Pow2(width) - addr
  {
    var p := Prepare(fault, space, widthRules, access, fix, info, width, offset, c1, plan.width, addr, image);
    assert p == Prepare(fault, space, widthRules, access, fix, info, width, offset, c2, plan.width, addr, image);
    var next := addr + Pow2(plan.width);
    if p.status == Success && Outcome(fault, WriteOp, plan.width, addr, 1, true) == Success && next < offset + Pow2(width) {
      WriteWalkStep(fault, widthRules, access, fix, info, width, offset, c1, space, plan, addr, image, done, p, next);
      WriteWalkStep(fault, widthRules, access, fix, info, width, offset, c2, space, plan, addr, image, done, p, next);
      WriteWalkIgnoresCaller(fault, widthRules, access, fix, info, width, offset, c1, c2,
                             Store(space, addr, p.image[..Pow2(plan.width)]), Advance(access, info, RegisterWrite, plan, next),
                             next, ShiftDown(p.image, Pow2(plan.width)), (done + p.trace) + [Access(WriteOp, plan.width, addr, 1)]);
    }
  }

  /** A 32-bit write under a record that asks for 64-bit accesses: the merge has no case
      for a 32-bit caller, so the Data written is the read-back alone, and the result does
      not depend on the caller's value at all. */
  lemma DwordUnderQwordIgnoresCaller(fault: Fault, space: Space, widthRules: bool, access: AccessTable, fix: FixUp,
                                     info: DeviceInfo, offset: nat, c1: Image, c2: Image)
    requires WidthRuleApplies(widthRules, access, info, RegisterWrite, 2, offset)
    requires StartPlan(access(info, RegisterWrite, offset % 256, 2).data, 2).width == 3
    ensures WriteConfig(fault, space, widthRules, access, fix, info, 2, offset, c1)
         == WriteConfig(fault, space, widthRules, access, fix, info, 2, offset, c2)
  {
    var plan := StartPlan(access(info, RegisterWrite, offset % 256, 2).data, 2);
    var addr := AccessAddress(plan, offset);
    var p1 := Prepare(fault, space, widthRules, access, fix, info, 2, offset, c1, 3, addr, c1);
    var p2 := Prepare(fault, space, widthRules, access, fix, info, 2, offset, c2, 3, addr, c2);
    var s := Outcome(fault, WriteOp, 3, addr, 1, true);
    assert Pow2(2) == 4 && Pow2(3) == 8;
    assert p1.status == p2.status && p1.trace == p2.trace;
    assert p1.status == Success ==> p1 == p2;
    var next := addr + 8;
    if p1.status == Success && s == Success && next < offset + 4 {
      WriteWalkStep(fault, widthRules, access, fix, info, 2, offset, c1, space, plan, addr, c1, [], p1, next);
      WriteWalkStep(fault, widthRules, access, fix, info, 2, offset, c2, space, plan, addr, c2, [], p2, next);
      WriteWalkIgnoresCaller(fault, widthRules, access, fix, info, 2, offset, c1, c2,
                             Store(space, addr, p1.image[..8]), Advance(access, info, RegisterWrite, plan, next),
                             next, ShiftDown(p1.image, 8), (([] + p1.trace) + [Access(WriteOp, 3, addr, 1)]));
    } else if p1.status == Success {
      WriteWalkStop(fault, widthRules, access, fix, info, 2, offset, c1, space, plan, addr, c1, [], p1, s);
      WriteWalkStop(fault, widthRules, access, fix, info, 2, offset, c2, space, plan, addr, c2, [], p2, s);
    }
  }

  /** A 32-bit write served by one 64-bit unit, with no value records for the register:
      when it succeeds it writes back exactly what it read, so no configuration byte
      changes and the caller's 32 bits never reach the device. */
  lemma DwordUnderQwordRewritesReadBack(fault: Fault, space: Space, widthRules: bool, access: AccessTable, fix: FixUp,
                                        info: DeviceInfo, offset: nat, caller: Image, addr: nat)
    requires WidthRuleApplies(widthRules, access, info, RegisterWrite, 2, offset)
    requires StartPlan(access(info, RegisterWrite, offset % 256, 2).data, 2).width == 3
    requires addr == AccessAddress(StartPlan(access(info, RegisterWrite, offset % 256, 2).data, 2), offset)
    requires offset + 4 <= addr + 8
    requires Transparent(fix, RegisterRead, 3, addr % 256) && Transparent(fix, RegisterWrite, 3, addr * 255)
    requires WriteConfig(fault, space, widthRules, access, fix, info, 2, offset, caller).status == Success
    ensures forall a :: Peek(WriteConfig(fault, space, widthRules, access, fix, info, 2, offset, caller).space, a)
                        == Peek(space, a)
  {
    var plan := StartPlan(access(info, RegisterWrite, offset % 256, 2).data, 2);
    var r := WriteConfig(fault, space, widthRules, access, fix, info, 2, offset, caller);
    assert Pow2(2) == 4 && Pow2(3) == 8;
    assert r == WriteWalk(fault, widthRules, access, fix, info, 2, offset, caller, space, plan, addr, caller, []);
    var p := Prepare(fault, space, widthRules, access, fix, info, 2, offset, caller, 3, addr, caller);
    var s := Outcome(fault, WriteOp, 3, addr, 1, true);
    assert p.status == Success;
    WriteWalkStop(fault, widthRules, access, fix, info, 2, offset, caller, space, plan, addr, caller, [], p, s);
    var rd := ReadConfig(fault, space, widthRules, access, info, 3, addr);
    ReadConfigReturns(fault, space, widthRules, access, info, 3, addr);
    assert rd.data == Span(space, addr, 8);
    assert p.image[..8] == Span(space, addr, 8);
    forall a: nat
      ensures Peek(r.space, a) == Peek(space, a)
    {
      StoreOwnSpan(space, addr, 8, a);
    }
  }

  // ---------------------------------------------------------------------------
  // The write fix-up offset
  // ---------------------------------------------------------------------------

  /** The write fix-up of the read-modify-write path is looked up at
      `AccessAddress * 0xff`, whose low byte is the negated register offset: it names the
      register being written only at offsets 0 and 128. */
  lemma WriteFixupOffset(addr: nat)
    ensures (addr * 255) % 256 == (256 - addr % 256) % 256
    ensures (addr * 255) % 256 == addr % 256 <==> addr % 128 == 0
  {
    var q, r := addr / 256, addr % 256;
    Times255(addr, q, r);
    Residue(addr * 255, 255 * q + r, r);
    SelfNegating(r);
    HalfResidue(addr, q, r);
  }

  /** 255 times 256q + r falls r short of a multiple of 256. */
  lemma Times255(addr: nat, q: nat, r: nat)
    requires addr == 256 * q + r
    ensures addr * 255 + r == 256 * (255 * q + r)
  {
  }

  /** A value r short of a multiple of 256 leaves the remainder 256 - r, or 0 when r is 0. */
  lemma Residue(m: nat, k: nat, r: nat)
    requires r < 256 && m + r == 256 * k
    ensures m % 256 == (256 - r) % 256
  {
    if r > 0 {
      assert m == 256 * (k - 1) + (256 - r);
    }
  }

  /** Remainders by 128 agree with remainders of the remainder by 256. */
  lemma HalfResidue(addr: nat, q: nat, r: nat)
    requires addr == 256 * q + r && r < 256
    ensures addr % 128 == r % 128
  {
    var h, l := r / 128, r % 128;
    assert addr == 128 * (2 * q + h) + l;
  }

  /** A register offset below 256 is its own negation modulo 256 exactly at 0 and 128. */
  lemma SelfNegating(r: nat)
    requires r < 256
    ensures (256 - r) % 256 == r <==> r % 128 == 0
  {
  }

}
