/** The physical configuration transport (EFI_PCI_ROOT_BRIDGE_IO_PROTOCOL.Pci and
    EFI_PCI_IO_PROTOCOL.Pci). It is foreign to the bus driver: whether an access goes
    through is an injected decision, and a successful access moves bytes to or from
    a byte-addressed configuration space. */
module Transport {
  import opened EfiStatus
  import opened Bits

  datatype Direction = ReadOp | WriteOp

  /** One call into the transport: direction, width code, address and unit count. */
  datatype Access = Access(dir: Direction, width: nat, addr: nat, count: nat)

  /** Configuration bytes by address. */
  type Space = map<nat, bv8>

  /** The platform's verdict on an access (direction, width code, address, count). */
  type Fault = (Direction, nat, nat, nat) -> Status

  /** A configuration byte; an address no device decodes reads as all ones. */
  function Peek(space: Space, a: nat): bv8
  {
    if a in space then space[a] else 0xFF
  }

  /** The n configuration bytes starting at a. */
  function Span(space: Space, a: nat, n: nat): (r: seq<bv8>)
    ensures |r| == n
    ensures forall k :: 0 <= k < n ==> r[k] == Peek(space, a + k)
  {
    seq(n, k requires 0 <= k < n => Peek(space, a + k))
  }

  /** x - a, for an address x at or above a. */
  function Offset(x: nat, a: nat): nat
    requires a <= x
  {
    x - a
  }

  /** The space after the bytes b are stored at addresses a, a + 1, ... */
  function Store(m: Space, a: nat, b: seq<bv8>): Space
    decreases |b|
  {
    if |b| == 0 then m else Store(m[a := b[0]], a + 1, b[1..])
  }

  /** After a store the addresses a .. a + |b| - 1 hold the stored bytes, and every
      other address is as it was. */
  lemma {:induction false} StoreAt(m: Space, a: nat, b: seq<bv8>, x: nat)
    ensures x in Store(m, a, b) <==> x in m || a <= x < a + |b|
    ensures a <= x < a + |b| ==> Store(m, a, b)[x] == b[x - a]
    ensures !(a <= x < a + |b|) && x in m ==> Store(m, a, b)[x] == m[x]
    decreases |b|
  {
    if |b| > 0 {
      StoreAt(m[a := b[0]], a + 1, b[1..], x);
    }
  }

  /** A store leaves the configuration bytes outside the stored run as they were. */
  lemma PeekStore(m: Space, a: nat, b: seq<bv8>, x: nat)
    requires !(a <= x < a + |b|)
    ensures Peek(Store(m, a, b), x) == Peek(m, x)
  {
    StoreAt(m, a, b, x);
  }

  /** The bytes of a stored run read back from inside the run. */
  lemma SpanInsideStore(m: Space, a: nat, b: seq<bv8>, i: nat, n: nat)
    requires i + n <= |b|
    ensures Span(Store(m, a, b), a + i, n) == b[i..i + n]
  {
    var s := Span(Store(m, a, b), a + i, n);
    forall k | 0 <= k < n
      ensures s[k] == b[i + k]
    {
      StoreAt(m, a, b, a + i + k);
    }
  }

  /** Storing the bytes a run already holds leaves every byte reading as it did. */
  lemma StoreOwnSpan(m: Space, a: nat, n: nat, x: nat)
    ensures Peek(Store(m, a, Span(m, a, n)), x) == Peek(m, x)
  {
    StoreAt(m, a, Span(m, a, n), x);
  }

  /** Reading back stored bytes gives those bytes. */
  lemma SpanOfStore(m: Space, a: nat, b: seq<bv8>)
    ensures Span(Store(m, a, b), a, |b|) == b
  {
    var s := Span(Store(m, a, b), a, |b|);
    forall k | 0 <= k < |b|
      ensures s[k] == b[k]
    {
      StoreAt(m, a, b, a + k);
    }
  }

  /** Storing two adjacent runs of bytes is storing their concatenation. */
  lemma {:induction false} StoreAdjacent(m: Space, a: nat, b1: seq<bv8>, b2: seq<bv8>)
    ensures Store(Store(m, a, b1), a + |b1|, b2) == Store(m, a, b1 + b2)
    decreases |b1|
  {
    if |b1| > 0 {
      StoreAdjacent(m[a := b1[0]], a + 1, b1[1..], b2);
      assert (b1 + b2)[1..] == b1[1..] + b2;
    } else {
      assert b1 + b2 == b2;
    }
  }

  /** Adjacent spans concatenate. */
  lemma SpanAdjacent(space: Space, a: nat, n: nat, m: nat)
    ensures Span(space, a, n) + Span(space, a + n, m) == Span(space, a, n + m)
  {
    var l := Span(space, a, n) + Span(space, a + n, m);
    var r := Span(space, a, n + m);
    forall k | 0 <= k < n + m
      ensures l[k] == r[k]
    {
      if k >= n {
        assert l[k] == Span(space, a + n, m)[k - n];
      }
    }
  }

  /** A buffer holding the bytes from a up to x, followed by the n bytes at x, holds the
      bytes from a up to x + n. */
  lemma SpanExtend(space: Space, a: nat, x: nat, n: nat, t: seq<bv8>, b: seq<bv8>)
    requires a <= x && t == Span(space, a, x - a) && b == Span(space, x, n)
    ensures t + b == Span(space, a, x + n - a)
  {
    SpanAdjacent(space, a, x - a, n);
  }

  /** Status of an access: a missing buffer or a width code above 3 (64-bit) is an
      invalid parameter; otherwise the platform decides. */
  function Outcome(fault: Fault, d: Direction, w: nat, a: nat, count: nat, hasBuffer: bool): (s: Status)
    ensures s == Success ==> hasBuffer && w <= 3
  {
    if !hasBuffer || w > 3 then InvalidParameter else fault(d, w, a, count)
  }

  /** A root bridge's (or a device's) configuration transport. Every call is appended
      to the log, whether it succeeds or not. */
  class PciConfigTransport {
    var space: Space
    var log: seq<Access>
    const fault: Fault

    constructor (space0: Space, fault0: Fault)
      ensures space == space0 && fault == fault0 && log == []
    {
      space := space0;
      log := [];
      fault := fault0;
    }

    /** Pci.Read: count units of 2^w bytes from address a. */
    method Read(w: nat, a: nat, count: nat, hasBuffer: bool) returns (status: Status, data: seq<bv8>)
      modifies this
      ensures space == old(space) && log == old(log) + [Access(ReadOp, w, a, count)]
      ensures status == Outcome(fault, ReadOp, w, a, count, hasBuffer)
      ensures status == Success ==> data == Span(space, a, count * Pow2(w))
      ensures status != Success ==> data == []
    {
      log := log + [Access(ReadOp, w, a, count)];
      status := Outcome(fault, ReadOp, w, a, count, hasBuffer);
      data := if status == Success then Span(space, a, count * Pow2(w)) else [];
    }

    /** Pci.Write: count units of 2^w bytes from the buffer to address a. */
    method Write(w: nat, a: nat, count: nat, buffer: Option<seq<bv8>>) returns (status: Status)
      requires buffer.Some? && w <= 3 ==> |buffer.value| >= count * Pow2(w)
      modifies this
      ensures log == old(log) + [Access(WriteOp, w, a, count)]
      ensures status == Outcome(fault, WriteOp, w, a, count, buffer.Some?)
      ensures status == Success ==> space == Store(old(space), a, buffer.value[..count * Pow2(w)])
      ensures status != Success ==> space == old(space)
    {
      log := log + [Access(WriteOp, w, a, count)];
      status := Outcome(fault, WriteOp, w, a, count, buffer.Some?);
      if status == Success {
        space := Store(space, a, buffer.value[..count * Pow2(w)]);
      }
    }
  }
}
