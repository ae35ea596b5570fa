/** The control of PciHostBridgeResourceAllocator: one resource tree per resource type
    per root bridge is built and submitted to the host bridge; on rejection, with hot-plug
    support, the pools are adjusted, released and the whole submission retried; on
    acceptance the granted bases are handed to option-ROM processing and programmed.
    The host bridge's answers and the work of collaborators this file does not define
    (CreateResourceMap, GetMaxOptionRomSize, ConstructAcpiResourceRequestor,
    PciHostBridgeAdjustAllocation, GetProposedResources) are the firmware's script. */
module Allocator {
  import opened EfiStatus

  /** PciBarTypeIo16, PciBarTypeMem32, PciBarTypePMem32, PciBarTypeMem64, PciBarTypePMem64:
      the five resource types, each with its own pool. */
  datatype Kind = Io16 | Mem32 | PMem32 | Mem64 | PMem64

  const Kinds: seq<Kind> := [Io16, Mem32, PMem32, Mem64, PMem64]

  /** The alignment a root bridge's resource node is created with: 4 KiB - 1 for I/O and
      1 MiB - 1 for every memory type. */
  function InitialAlignment(k: Kind): nat
  {
    if k == Io16 then 0xFFF else 0xFFFFF
  }

  /** A root bridge's resource node (PCI_RESOURCE_NODE) in one of the five pools. */
  datatype Node = Node(kind: Kind, handle: nat, length: nat, alignment: nat)

  /** The length and alignment a root node of one resource type holds once
      CreateResourceMap has gone through the devices below the root bridge.
      CreateResourceMap is not part of this model: any answer is allowed. */
  datatype Demand = Demand(length: nat, alignment: nat)

  /** What one attempt learns about one root bridge: its handle, whether
      GetRootBridgeByHandle resolves it, the demand per resource type (by position in
      Kinds; a missing entry leaves the created node as it is), GetMaxOptionRomSize, the status of
      ConstructAcpiResourceRequestor and of SubmitResources, and, should the attempt be
      rejected, the status of GetProposedResources. */
  datatype RootAnswer = RootAnswer(handle: nat, resolved: bool, demands: seq<Demand>, maxRom: nat,
                                   construct: Status, submit: Status, proposed: Status)

  /** One pass of the retry loop: the root bridges in GetNextRootBridge order, the status
      of NotifyPhase (EfiPciHostBridgeAllocateResources), and that of
      PciHostBridgeAdjustAllocation should it be called. */
  datatype Attempt = Attempt(roots: seq<RootAnswer>, allocate: Status, adjust: Status)

  /** A root bridge in the programming pass: whether it resolves, the status of
      GetProposedResources, and the bases GetResourceBase reads from the granted
      resources (by position in Kinds). */
  datatype Grant = Grant(handle: nat, resolved: bool, proposed: Status, bases: seq<nat>)

  /** NotifyPhase calls. */
  datatype Phase = AllocateResources | FreeResources | SetResources | EndResourceAllocation

  /** ProcessOptionRom (handle, Mem32Base, RomSize) and ProgramResource (Base, node). */
  datatype Programmed = OptionRom(handle: nat, base: nat, romSize: nat) | Resource(handle: nat, kind: Kind, base: nat)

  /** How the allocator ends: with a status, or with the firmware script exhausted while
      the source would still be retrying. */
  datatype Outcome = Finished(status: Status) | ScriptExhausted

  /** The allocator's state: ReAllocate, the five pools (one list, each node tagged with
      its pool), each root bridge's RomSize, and what it has told the host bridge and
      programmed. */
  datatype State = State(reAllocate: bool, pools: seq<Node>, romSize: map<nat, nat>, phases: seq<Phase>,
                         programmed: seq<Programmed>)

  /** A run's outcome and the state it leaves. */
  datatype Run = Run(outcome: Outcome, s: State)

  /** The root node CreateResourceNode makes for resource type i: length 0 and the
      type's initial alignment. */
  function Created(a: RootAnswer, i: nat): (n: Node)
    requires i < |Kinds|
    ensures n.kind == Kinds[i] && n.handle == a.handle && n.length == 0
    ensures n.alignment == InitialAlignment(n.kind)
  {
    Node(Kinds[i], a.handle, 0, InitialAlignment(Kinds[i]))
  }

  function DemandOf(a: RootAnswer, i: nat): Demand
    requires i < |Kinds|
  {
    if i < |a.demands| then a.demands[i] else Demand(Created(a, i).length, Created(a, i).alignment)
  }

  function Max(x: nat, y: nat): nat
  {
    if x < y then y else x
  }

  /** The root node of resource type i once CreateResourceMap has filled it in. */
  function Mapped(a: RootAnswer, i: nat): (n: Node)
    requires i < |Kinds|
  {
    var d := DemandOf(a, i);
    Created(a, i).(length := d.length, alignment := d.alignment)
  }

  /** CreateResourceMap left each of a root bridge's nodes aligned at least as it was
      created. This file does not establish it; it is the premise of the alignment
      bounds below. */
  predicate KeepsAlignment(a: RootAnswer)
  {
    forall i :: 0 <= i < |Kinds| ==> Mapped(a, i).alignment >= Created(a, i).alignment
  }

  /** Every root bridge from k on satisfies KeepsAlignment. */
  predicate MapsAligned(roots: seq<RootAnswer>, k: nat)
  {
    forall j :: k <= j < |roots| ==> KeepsAlignment(roots[j])
  }

  /** The Mem32 root node and RomSize once the option ROMs are accounted for: only on the
      first attempt, and only when the largest option ROM is bigger than the Mem32 root,
      the node grows to that size and its alignment to at least that size less one. */
  function FitRom(mem32: Node, maxRom: nat, reAllocate: bool): (r: (Node, nat))
    ensures r.0.kind == mem32.kind && r.0.handle == mem32.handle
    ensures r.0.length == r.1 && r.0.alignment >= mem32.alignment
    ensures !reAllocate ==> r.1 == Max(mem32.length, maxRom)
    ensures !reAllocate && maxRom > mem32.length ==> r.0.alignment >= maxRom - 1
    ensures reAllocate || maxRom <= mem32.length ==> r.0 == mem32
  {
    if !reAllocate && maxRom > mem32.length then
      (mem32.(length := maxRom, alignment := if mem32.alignment < maxRom - 1 then maxRom - 1 else mem32.alignment), maxRom)
    else (mem32, mem32.length)
  }

  /** The five root nodes one attempt inserts for a root bridge, in pool order. */
  function RootNodes(a: RootAnswer, reAllocate: bool): (ns: seq<Node>)
    ensures |ns| == |Kinds|
    ensures forall i :: 0 <= i < |ns| ==> ns[i].kind == Kinds[i] && ns[i].handle == a.handle
    ensures forall i :: 0 <= i < |ns| ==>
              ns[i].length >= Mapped(a, i).length && ns[i].alignment >= Mapped(a, i).alignment
    ensures forall i :: 0 <= i < |ns| && i != 1 ==> ns[i] == Mapped(a, i)
    ensures reAllocate ==> ns[1] == Mapped(a, 1)
    ensures KeepsAlignment(a) ==> Aligned(ns)
  {
    [Mapped(a, 0), FitRom(Mapped(a, 1), a.maxRom, reAllocate).0, Mapped(a, 2), Mapped(a, 3), Mapped(a, 4)]
  }

  /** Whether a root bridge's resources were built and accepted. */
  predicate Accepted(a: RootAnswer)
  {
    a.resolved && a.construct == Success && a.submit == Success
  }

  /** The status that stops the submission walk at a root bridge that is not accepted. */
  function Refusal(a: RootAnswer): (st: Status)
    ensures !Accepted(a) ==> st != Success
    ensures !a.resolved ==> st == NotFound
  {
    if !a.resolved then NotFound else if a.construct != Success then a.construct else a.submit
  }

  /** The submission walk over root bridges k.. : an unresolved handle stops it with
      EFI_NOT_FOUND, leaving the pools as they are; a failed construction or submission
      stops it with that status after the pools are destroyed. */
  function SubmitFrom(roots: seq<RootAnswer>, k: nat, s: State): (r: (Status, State))
    requires k <= |roots|
    decreases |roots| - k
  {
    if k == |roots| then (Success, s)
    else
      var a := roots[k];
      if !a.resolved then (NotFound, s)
      else
        var s1 := SubmitStep(a, s);
        if !Accepted(a) then (Refusal(a), s1.(pools := []))
        else SubmitFrom(roots, k + 1, s1)
  }

  /** The walk over root bridges k.. after a rejection, collecting the proposed
      resources: an unresolved handle gives EFI_NOT_FOUND, a failed GetProposedResources
      its status. */
  function ProposedFrom(roots: seq<RootAnswer>, k: nat): (st: Status)
    requires k <= |roots|
    decreases |roots| - k
  {
    if k == |roots| then Success
    else if !roots[k].resolved then NotFound
    else if roots[k].proposed != Success then roots[k].proposed
    else ProposedFrom(roots, k + 1)
  }

  function BaseOf(g: Grant, i: nat): nat
  {
    if i < |g.bases| then g.bases[i] else 0
  }

  /** The RomSize a root bridge holds (0 before it is ever set). */
  function RomSizeOf(romSize: map<nat, nat>, handle: nat): nat
  {
    if handle in romSize then romSize[handle] else 0
  }

  /** What the programming pass records for one root bridge: its option ROMs placed at
      the Mem32 base with its RomSize, then each resource type programmed, in pool
      order, at the base granted for it. */
  function ProgramOne(g: Grant, romSize: map<nat, nat>): (ps: seq<Programmed>)
    ensures |ps| == 1 + |Kinds|
    ensures ps[0] == OptionRom(g.handle, BaseOf(g, 1), RomSizeOf(romSize, g.handle))
    ensures forall i :: 1 <= i < |ps| ==> ps[i] == Resource(g.handle, Kinds[i - 1], BaseOf(g, i - 1))
  {
    [OptionRom(g.handle, BaseOf(g, 1), RomSizeOf(romSize, g.handle))] +
    [Resource(g.handle, Io16, BaseOf(g, 0)), Resource(g.handle, Mem32, BaseOf(g, 1)),
     Resource(g.handle, PMem32, BaseOf(g, 2)), Resource(g.handle, Mem64, BaseOf(g, 3)),
     Resource(g.handle, PMem64, BaseOf(g, 4))]
  }

  /** The programming pass over root bridges k.. . */
  function ProgramFrom(grants: seq<Grant>, k: nat, s: State): (r: (Status, State))
    requires k <= |grants|
    decreases |grants| - k
  {
    if k == |grants| then (Success, s)
    else
      var g := grants[k];
      if !g.resolved then (NotFound, s)
      else if g.proposed != Success then (g.proposed, s)
      else ProgramFrom(grants, k + 1, s.(programmed := s.programmed + ProgramOne(g, s.romSize)))
  }

  /** After acceptance: EfiPciHostBridgeSetResources, the programming pass, then the
      pools destroyed and EfiPciHostBridgeEndResourceAllocation. */
  function Program(grants: seq<Grant>, s: State): (r: Run)
  {
    var p := ProgramFrom(grants, 0, s.(phases := s.phases + [SetResources]));
    if p.0 != Success then Run(Finished(p.0), p.1)
    else Run(Finished(Success), p.1.(pools := [], phases := p.1.phases + [EndResourceAllocation]))
  }

  /** The retry loop from attempt i on; every attempt starts with empty pools. */
  function AllocateFrom(hotPlugSupport: bool, attempts: seq<Attempt>, i: nat, grants: seq<Grant>, s: State): (r: Run)
    requires i <= |attempts|
    decreases |attempts| - i
  {
    if i == |attempts| then Run(ScriptExhausted, s)
    else
      var at := attempts[i];
      var sub := SubmitFrom(at.roots, 0, s.(pools := []));
      if sub.0 != Success then Run(Finished(sub.0), sub.1)
      else
        var s2 := sub.1.(phases := sub.1.phases + [AllocateResources]);
        if at.allocate == Success then Program(grants, s2)
        else if !hotPlugSupport then Run(Finished(OutOfResources), s2)
        else
          var q := ProposedFrom(at.roots, 0);
          if q != Success then Run(Finished(q), s2)
          else
            var s3 := s2.(pools := [], phases := s2.phases + [FreeResources]);
            if at.adjust != Success then Run(Finished(at.adjust), s3)
            else AllocateFrom(hotPlugSupport, attempts, i + 1, grants, s3.(reAllocate := true))
  }

  /** PciHostBridgeResourceAllocator called in state s: ReAllocate is cleared and the
      pools start empty; RomSize, the phases and the programming carry over. */
  function Allocate(hotPlugSupport: bool, attempts: seq<Attempt>, grants: seq<Grant>, s: State): Run
  {
    AllocateFrom(hotPlugSupport, attempts, 0, grants, s.(reAllocate := false, pools := []))
  }

  // What the allocator's control guarantees

  /** Every node is aligned to at least its type's initial alignment. */
  predicate Aligned(ns: seq<Node>)
  {
    forall i :: 0 <= i < |ns| ==> ns[i].alignment >= InitialAlignment(ns[i].kind)
  }

  lemma AlignedAppend(a: seq<Node>, b: seq<Node>)
    requires Aligned(a) && Aligned(b)
    ensures Aligned(a + b)
  {
    forall i | 0 <= i < |a + b|
      ensures (a + b)[i].alignment >= InitialAlignment((a + b)[i].kind)
    {
      if i >= |a| {
        assert (a + b)[i] == b[i - |a|];
      }
    }
  }

  predicate AllAccepted(roots: seq<RootAnswer>, k: nat)
  {
    forall j :: k <= j < |roots| ==> Accepted(roots[j])
  }

  /** Root bridge j is the first one from k on that is not accepted. */
  predicate FirstRefused(roots: seq<RootAnswer>, k: nat, j: nat)
  {
    k <= j < |roots| && !Accepted(roots[j]) && forall i :: k <= i < j ==> Accepted(roots[i])
  }

  /** The nodes the walk over root bridges k.. inserts when every one is accepted. */
  function AllNodes(roots: seq<RootAnswer>, k: nat, reAllocate: bool): seq<Node>
    requires k <= |roots|
    decreases |roots| - k
  {
    if k == |roots| then [] else RootNodes(roots[k], reAllocate) + AllNodes(roots, k + 1, reAllocate)
  }

  /** The submission walk succeeds exactly when every root bridge is resolved, built and
      accepted; otherwise it ends with the refusal of the first root bridge that is not
      accepted, which is EFI_NOT_FOUND for an unresolved handle. */
  lemma {:induction false} SubmitStatus(roots: seq<RootAnswer>, k: nat, s: State, r: (Status, State))
    requires k <= |roots| && r == SubmitFrom(roots, k, s)
    ensures r.0 == Success <==> AllAccepted(roots, k)
    ensures r.0 != Success ==> exists j: nat :: FirstRefused(roots, k, j) && r.0 == Refusal(roots[j])
    decreases |roots| - k
  {
    if k < |roots| {
      var a := roots[k];
      if !Accepted(a) {
        assert FirstRefused(roots, k, k);
      } else {
        SubmitStatus(roots, k + 1, SubmitStep(a, s), r);
        if r.0 != Success {
          var j: nat :| FirstRefused(roots, k + 1, j) && r.0 == Refusal(roots[j]);
          assert FirstRefused(roots, k, j);
        }
      }
    }
  }

  /** The state after one accepted root bridge: its nodes inserted and its RomSize set. */
  function SubmitStep(a: RootAnswer, s: State): (t: State)
  {
    s.(pools := s.pools + RootNodes(a, s.reAllocate), romSize := s.romSize[a.handle := FitRom(Mapped(a, 1), a.maxRom, s.reAllocate).1])
  }

  /** A successful submission walk adds every root bridge's five nodes to the pools. */
  lemma {:induction false} SubmitPools(roots: seq<RootAnswer>, k: nat, s: State, r: (Status, State))
    requires k <= |roots| && r == SubmitFrom(roots, k, s)
    ensures r.0 == Success ==> r.1.pools == s.pools + AllNodes(roots, k, s.reAllocate)
    decreases |roots| - k
  {
    if k < |roots| && Accepted(roots[k]) {
      var t := SubmitStep(roots[k], s);
      SubmitPools(roots, k + 1, t, r);
      var here, later := RootNodes(roots[k], s.reAllocate), AllNodes(roots, k + 1, s.reAllocate);
      assert AllNodes(roots, k, s.reAllocate) == here + later;
      assert s.pools + (here + later) == (s.pools + here) + later;
    }
  }

  /** No submission walk notifies a phase, sets ReAllocate or programs anything. */
  lemma {:induction false} SubmitState(roots: seq<RootAnswer>, k: nat, s: State, r: (Status, State))
    requires k <= |roots| && r == SubmitFrom(roots, k, s)
    ensures r.1.phases == s.phases && r.1.reAllocate == s.reAllocate && r.1.programmed == s.programmed
    decreases |roots| - k
  {
    if k < |roots| && Accepted(roots[k]) {
      SubmitState(roots, k + 1, SubmitStep(roots[k], s), r);
    }
  }

  /** When CreateResourceMap keeps each root node's created alignment, the pools only
      ever hold nodes aligned at least as their type's root node is created: 4 KiB - 1
      for I/O, 1 MiB - 1 for memory. */
  lemma {:induction false} SubmitAligned(roots: seq<RootAnswer>, k: nat, s: State)
    requires k <= |roots| && Aligned(s.pools)
    ensures MapsAligned(roots, k) ==> Aligned(SubmitFrom(roots, k, s).1.pools)
    decreases |roots| - k
  {
    if k < |roots| && roots[k].resolved && MapsAligned(roots, k) {
      var a := roots[k];
      AlignedAppend(s.pools, RootNodes(a, s.reAllocate));
      SubmitAligned(roots, k + 1, SubmitStep(a, s));
    }
  }

  /** Every attempt from i on maps its root bridges keeping their alignment. */
  predicate AttemptsAligned(attempts: seq<Attempt>, i: nat)
  {
    forall j :: i <= j < |attempts| ==> MapsAligned(attempts[j].roots, 0)
  }

  lemma {:induction false} AllocateAligned(hotPlugSupport: bool, attempts: seq<Attempt>, i: nat, grants: seq<Grant>, s: State)
    requires i <= |attempts| && Aligned(s.pools)
    ensures AttemptsAligned(attempts, i) ==> Aligned(AllocateFrom(hotPlugSupport, attempts, i, grants, s).s.pools)
    decreases |attempts| - i
  {
    if i < |attempts| && AttemptsAligned(attempts, i) {
      var at := attempts[i];
      SubmitAligned(at.roots, 0, s.(pools := []));
      var sub := SubmitFrom(at.roots, 0, s.(pools := []));
      var s2 := sub.1.(phases := sub.1.phases + [AllocateResources]);
      if sub.0 == Success && at.allocate == Success {
        ProgramOutcome(grants, 0, s2.(phases := s2.phases + [SetResources]), ProgramFrom(grants, 0, s2.(phases := s2.phases + [SetResources])));
      }
      if sub.0 == Success && at.allocate != Success && hotPlugSupport && ProposedFrom(at.roots, 0) == Success && at.adjust == Success {
        var s3 := s2.(pools := [], phases := s2.phases + [FreeResources]);
        AllocateAligned(hotPlugSupport, attempts, i + 1, grants, s3.(reAllocate := true));
      }
    }
  }

  /** The status of the programming pass over root bridges k.. : the first unresolved
      handle or failed GetProposedResources. */
  function GrantStatus(grants: seq<Grant>, k: nat): Status
    requires k <= |grants|
    decreases |grants| - k
  {
    if k == |grants| then Success
    else if !grants[k].resolved then NotFound
    else if grants[k].proposed != Success then grants[k].proposed
    else GrantStatus(grants, k + 1)
  }

  /** The programming pass only records what it programs. */
  lemma {:induction false} ProgramOutcome(grants: seq<Grant>, k: nat, s: State, r: (Status, State))
    requires k <= |grants| && r == ProgramFrom(grants, k, s)
    ensures r.0 == GrantStatus(grants, k)
    ensures r.1 == s.(programmed := r.1.programmed) && |r.1.programmed| >= |s.programmed|
    decreases |grants| - k
  {
    if k < |grants| && grants[k].resolved && grants[k].proposed == Success {
      ProgramOutcome(grants, k + 1, s.(programmed := s.programmed + ProgramOne(grants[k], s.romSize)), r);
    }
  }

  /** A rejected attempt whose proposals are read and whose pools are adjusted. */
  predicate Retried(at: Attempt)
  {
    AllAccepted(at.roots, 0) && at.allocate != Success && ProposedFrom(at.roots, 0) == Success && at.adjust == Success
  }

  /** n rounds of EfiPciHostBridgeAllocateResources then EfiPciHostBridgeFreeResources. */
  function Retries(n: nat): (ps: seq<Phase>)
    ensures |ps| == 2 * n
  {
    if n == 0 then [] else [AllocateResources, FreeResources] + Retries(n - 1)
  }

  /** The state a retried attempt leaves for the next: what the submission walk left,
      the pools released, both phases notified and ReAllocate set. */
  function Released(at: Attempt, s: State): State
  {
    var t := SubmitFrom(at.roots, 0, s.(pools := [])).1;
    t.(pools := [], phases := t.phases + [AllocateResources, FreeResources], reAllocate := true)
  }

  lemma RetryStep(attempts: seq<Attempt>, i: nat, grants: seq<Grant>, s: State)
    requires i < |attempts| && Retried(attempts[i])
    ensures AllocateFrom(true, attempts, i, grants, s) == AllocateFrom(true, attempts, i + 1, grants, Released(attempts[i], s))
    ensures Released(attempts[i], s).phases == s.phases + [AllocateResources, FreeResources]
    ensures Released(attempts[i], s).reAllocate
  {
    var sub := SubmitFrom(attempts[i].roots, 0, s.(pools := []));
    SubmitStatus(attempts[i].roots, 0, s.(pools := []), sub);
    SubmitState(attempts[i].roots, 0, s.(pools := []), sub);
    assert sub.1.phases + [AllocateResources] + [FreeResources] == sub.1.phases + [AllocateResources, FreeResources];
  }

  /** Root bridge j is the last one with its handle: GetNextRootBridge yields no later
      root bridge whose RomSize would overwrite it. */
  predicate LastWith(roots: seq<RootAnswer>, j: nat)
    requires j < |roots|
  {
    forall l :: j < l < |roots| ==> roots[l].handle != roots[j].handle
  }

  /** The RomSize an attempt's submission sets for a root bridge: the Mem32 length,
      enlarged to the largest option ROM on the first attempt. */
  function SubmittedRomSize(a: RootAnswer, reAllocate: bool): nat
  {
    FitRom(Mapped(a, 1), a.maxRom, reAllocate).1
  }

  /** No root bridge from k on has handle h. */
  predicate Untouched(roots: seq<RootAnswer>, k: nat, h: nat)
  {
    forall j :: k <= j < |roots| ==> roots[j].handle != h
  }

  /** The submission walk leaves the RomSize of a handle it does not visit as it was. */
  lemma {:induction false} SubmitRomFrame(roots: seq<RootAnswer>, k: nat, s: State, h: nat)
    requires k <= |roots| && Untouched(roots, k, h)
    ensures RomSizeOf(SubmitFrom(roots, k, s).1.romSize, h) == RomSizeOf(s.romSize, h)
    decreases |roots| - k
  {
    if k < |roots| && roots[k].resolved && Accepted(roots[k]) {
      SubmitRomFrame(roots, k + 1, SubmitStep(roots[k], s), h);
    }
  }

  /** A successful submission walk leaves each root bridge's RomSize as its own
      submission set it. */
  lemma {:induction false} SubmitRomSize(roots: seq<RootAnswer>, k: nat, s: State)
    requires k <= |roots| && SubmitFrom(roots, k, s).0 == Success
    ensures forall j :: k <= j < |roots| && LastWith(roots, j) ==>
              RomSizeOf(SubmitFrom(roots, k, s).1.romSize, roots[j].handle) == SubmittedRomSize(roots[j], s.reAllocate)
    decreases |roots| - k
  {
    if k < |roots| {
      var t := SubmitStep(roots[k], s);
      SubmitRomSize(roots, k + 1, t);
      if LastWith(roots, k) {
        SubmitRomFrame(roots, k + 1, t, roots[k].handle);
      }
    }
  }

  /** A successful programming pass hands every root bridge's option ROMs to
      ProcessOptionRom at the granted Mem32 base with the RomSize the root bridge holds. */
  lemma {:induction false} ProgramRoms(grants: seq<Grant>, k: nat, s: State, r: (Status, State))
    requires k <= |grants| && r == ProgramFrom(grants, k, s) && GrantStatus(grants, k) == Success
    ensures forall m :: k <= m < |grants| ==>
              OptionRom(grants[m].handle, BaseOf(grants[m], 1), RomSizeOf(s.romSize, grants[m].handle)) in r.1.programmed
    ensures s.programmed <= r.1.programmed
    decreases |grants| - k
  {
    if k < |grants| {
      var ps := ProgramOne(grants[k], s.romSize);
      var t := s.(programmed := s.programmed + ps);
      ProgramRoms(grants, k + 1, t, r);
      assert t.programmed[|s.programmed|] == ps[0];
    }
  }

  /** Every grant of a root bridge that the accepted attempt submitted carries that
      submission's RomSize to ProcessOptionRom. */
  predicate RomsProcessed(roots: seq<RootAnswer>, grants: seq<Grant>, reAllocate: bool, programmed: seq<Programmed>)
  {
    forall j, m :: 0 <= j < |roots| && 0 <= m < |grants| && LastWith(roots, j) && grants[m].handle == roots[j].handle ==>
      OptionRom(grants[m].handle, BaseOf(grants[m], 1), SubmittedRomSize(roots[j], reAllocate)) in programmed
  }

  lemma AcceptStep(attempts: seq<Attempt>, i: nat, grants: seq<Grant>, s: State)
    requires i < |attempts| && AllAccepted(attempts[i].roots, 0) && attempts[i].allocate == Success
    ensures var r := AllocateFrom(true, attempts, i, grants, s);
            var st := GrantStatus(grants, 0);
            r.outcome == Finished(st) &&
            r.s.phases == s.phases + AcceptedPhases(st) &&
            r.s.reAllocate == s.reAllocate &&
            (st == Success ==> RomsProcessed(attempts[i].roots, grants, s.reAllocate, r.s.programmed))
  {
    var roots := attempts[i].roots;
    var sub := SubmitFrom(roots, 0, s.(pools := []));
    SubmitStatus(roots, 0, s.(pools := []), sub);
    SubmitState(roots, 0, s.(pools := []), sub);
    SubmitRomSize(roots, 0, s.(pools := []));
    var s3 := sub.1.(phases := sub.1.phases + [AllocateResources] + [SetResources]);
    var p := ProgramFrom(grants, 0, s3);
    ProgramOutcome(grants, 0, s3, p);
    if GrantStatus(grants, 0) == Success {
      ProgramRoms(grants, 0, s3, p);
    }
  }

  /** The phases notified from an accepted attempt on, when programming ends with st. */
  function AcceptedPhases(st: Status): seq<Phase>
  {
    [AllocateResources, SetResources] + (if st == Success then [EndResourceAllocation] else [])
  }

  /** The retry loop from attempt i on, when n attempts are rejected and retried and the
      next is accepted. */
  lemma {:induction false} RetriesFrom(attempts: seq<Attempt>, i: nat, n: nat, grants: seq<Grant>, s: State)
    requires i + n < |attempts|
    requires forall j :: i <= j < i + n ==> Retried(attempts[j])
    requires AllAccepted(attempts[i + n].roots, 0) && attempts[i + n].allocate == Success
    ensures var r := AllocateFrom(true, attempts, i, grants, s);
            var st := GrantStatus(grants, 0);
            r.outcome == Finished(st) &&
            r.s.phases == s.phases + Retries(n) + AcceptedPhases(st) &&
            r.s.reAllocate == (s.reAllocate || n > 0) &&
            (st == Success ==> RomsProcessed(attempts[i + n].roots, grants, s.reAllocate || n > 0, r.s.programmed))
    decreases n
  {
    if n == 0 {
      AcceptStep(attempts, i, grants, s);
    } else {
      var s3 := Released(attempts[i], s);
      RetriesFrom(attempts, i + 1, n - 1, grants, s3);
      RetryStep(attempts, i, grants, s);
      var rest, tail := Retries(n - 1), AcceptedPhases(GrantStatus(grants, 0));
      assert Retries(n) == [AllocateResources, FreeResources] + rest;
      assert (s.phases + [AllocateResources, FreeResources]) + rest + tail == s.phases + Retries(n) + tail;
    }
  }

  /** With hot-plug support, a host bridge that rejects n attempts and accepts the next
      is submitted to exactly n + 1 times, each rejection followed by the release of the
      pools (EfiPciHostBridgeFreeResources); the accepted attempt is followed by the
      programming pass, whose status the allocator returns. The call ends with
      ReAllocate set exactly when there was a retry, and a successful programming pass
      hands each root bridge's option ROMs the RomSize of the accepted submission: the
      Mem32 length enlarged to the largest option ROM when n == 0, the Mem32 length
      alone after a retry. */
  lemma RetriesUntilAccepted(attempts: seq<Attempt>, n: nat, grants: seq<Grant>, s: State)
    requires n < |attempts|
    requires forall j :: 0 <= j < n ==> Retried(attempts[j])
    requires AllAccepted(attempts[n].roots, 0) && attempts[n].allocate == Success
    ensures var r := Allocate(true, attempts, grants, s);
            var st := GrantStatus(grants, 0);
            r.outcome == Finished(st) &&
            r.s.phases == s.phases + Retries(n) + AcceptedPhases(st) &&
            r.s.reAllocate == (n > 0) &&
            (st == Success ==> RomsProcessed(attempts[n].roots, grants, n > 0, r.s.programmed))
  {
    RetriesFrom(attempts, 0, n, grants, s.(reAllocate := false, pools := []));
  }

  /** Without hot-plug support there is no retry: only the first attempt is used,
      ReAllocate stays clear, and a rejected allocation is EFI_OUT_OF_RESOURCES. */
  lemma WithoutHotPlug(attempts: seq<Attempt>, grants: seq<Grant>, s: State)
    requires |attempts| > 0
    ensures var r := Allocate(false, attempts, grants, s);
            r == Allocate(false, attempts[..1], grants, s) && !r.s.reAllocate &&
            (AllAccepted(attempts[0].roots, 0) && attempts[0].allocate != Success ==> r.outcome == Finished(OutOfResources))
  {
    var at := attempts[0];
    assert attempts[..1][0] == at;
    var s0 := s.(reAllocate := false, pools := []);
    var sub := SubmitFrom(at.roots, 0, s0);
    SubmitStatus(at.roots, 0, s0, sub);
    SubmitState(at.roots, 0, s0, sub);
    var s2 := sub.1.(phases := sub.1.phases + [AllocateResources]);
    var s3 := s2.(phases := s2.phases + [SetResources]);
    ProgramOutcome(grants, 0, s3, ProgramFrom(grants, 0, s3));
  }

  /** On the first attempt the Mem32 root node of each root bridge is large enough for
      its largest option ROM and aligned to that size less one; on a retry it is exactly
      what the devices demand. */
  lemma RomOnFirstAttempt(a: RootAnswer, reAllocate: bool)
    ensures var m := RootNodes(a, reAllocate)[1];
            (!reAllocate ==> m.length == Max(DemandOf(a, 1).length, a.maxRom) &&
                             (a.maxRom > DemandOf(a, 1).length ==> m.alignment >= a.maxRom - 1)) &&
            (reAllocate ==> m.length == DemandOf(a, 1).length)
  {
  }

  /** The allocator's state held by the PCI bus driver. */
  class ResourceAllocator {
    const hotPlugSupport: bool
    var reAllocate: bool
    var pools: seq<Node>
    var romSize: map<nat, nat>
    var phases: seq<Phase>
    var programmed: seq<Programmed>

    function Snapshot(): State
      reads this
    {
      State(reAllocate, pools, romSize, phases, programmed)
    }

    constructor(hotPlugSupport: bool)
      ensures this.hotPlugSupport == hotPlugSupport && Snapshot() == State(false, [], map[], [], [])
    {
      this.hotPlugSupport := hotPlugSupport;
      reAllocate := false;
      pools := [];
      romSize := map[];
      phases := [];
      programmed := [];
    }

    /** PciHostBridgeResourceAllocator: ReAllocate starts clear on every call and every
        attempt starts with freshly initialised pools. */
    method PciHostBridgeResourceAllocator(attempts: seq<Attempt>, grants: seq<Grant>) returns (outcome: Outcome)
      modifies this
      ensures var r := Allocate(hotPlugSupport, attempts, grants, old(Snapshot()));
              outcome == r.outcome && Snapshot() == r.s
    {
      reAllocate := false;
      pools := [];
      ghost var whole := AllocateFrom(hotPlugSupport, attempts, 0, grants, Snapshot());
      var i := 0;
      while i < |attempts|
        invariant i <= |attempts| && whole == AllocateFrom(hotPlugSupport, attempts, i, grants, Snapshot())
        decreases |attempts| - i
      {
        var at := attempts[i];
        pools := [];
        var status := SubmitResources(at.roots);
        if status != Success {
          return Finished(status);
        }
        phases := phases + [AllocateResources];
        if at.allocate == Success {
          status := ProgramResources(grants);
          return Finished(status);
        }
        if !hotPlugSupport {
          return Finished(OutOfResources);
        }
        status := CheckProposed(at.roots);
        if status != Success {
          return Finished(status);
        }
        pools := [];
        phases := phases + [FreeResources];
        if at.adjust != Success {
          return Finished(at.adjust);
        }
        reAllocate := true;
        i := i + 1;
      }
      return ScriptExhausted;
    }

    /** The walk that builds, inserts and submits each root bridge's resource nodes. */
    method SubmitResources(roots: seq<RootAnswer>) returns (status: Status)
      modifies this
      ensures var r := SubmitFrom(roots, 0, old(Snapshot()));
              status == r.0 && Snapshot() == r.1
    {
      ghost var whole := SubmitFrom(roots, 0, Snapshot());
      var k := 0;
      while k < |roots|
        invariant k <= |roots| && whole == SubmitFrom(roots, k, Snapshot())
        decreases |roots| - k
      {
        var a := roots[k];
        if !a.resolved {
          return NotFound;
        }
        var fit := FitRom(Mapped(a, 1), a.maxRom, reAllocate);
        romSize := romSize[a.handle := fit.1];
        pools := pools + RootNodes(a, reAllocate);
        status := a.construct;
        if status == Success {
          status := a.submit;
        }
        if status != Success {
          pools := [];
          return;
        }
        k := k + 1;
      }
      return Success;
    }

    /** The walk that collects the proposed resources after a rejection. */
    method CheckProposed(roots: seq<RootAnswer>) returns (status: Status)
      ensures status == ProposedFrom(roots, 0)
    {
      var k := 0;
      while k < |roots|
        invariant k <= |roots| && ProposedFrom(roots, 0) == ProposedFrom(roots, k)
        decreases |roots| - k
      {
        if !roots[k].resolved {
          return NotFound;
        }
        if roots[k].proposed != Success {
          return roots[k].proposed;
        }
        k := k + 1;
      }
      return Success;
    }

    /** The programming pass and the end of resource allocation. */
    method ProgramResources(grants: seq<Grant>) returns (status: Status)
      modifies this
      ensures var r := Program(grants, old(Snapshot()));
              r.outcome == Finished(status) && Snapshot() == r.s
    {
      phases := phases + [SetResources];
      ghost var whole := ProgramFrom(grants, 0, Snapshot());
      var k := 0;
      while k < |grants|
        invariant k <= |grants| && whole == ProgramFrom(grants, k, Snapshot())
        decreases |grants| - k
      {
        var g := grants[k];
        if !g.resolved {
          return NotFound;
        }
        if g.proposed != Success {
          return g.proposed;
        }
        programmed := programmed + ProgramOne(g, romSize);
        k := k + 1;
      }
      pools := [];
      phases := phases + [EndResourceAllocation];
      return Success;
    }
  }
}
