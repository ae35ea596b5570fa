/** Byte and size arithmetic shared by the configuration accessor. A 64-bit buffer
    (TempBuffer, Data) is held as its 8-byte little-endian image; shifting it by a
    multiple of 8 bits moves its bytes. */
module Bits {

  /** 2^n; `1 << Width` is the size in bytes of a PCI access of width code n. */
  function Pow2(n: nat): (r: nat)
    ensures r >= 1
  {
    if n == 0 then 1 else 2 * Pow2(n - 1)
  }

  /** Sizes of access widths multiply: a wider access is a whole number of narrower ones. */
  lemma {:induction false} Pow2Add(a: nat, b: nat)
    ensures Pow2(a + b) == Pow2(a) * Pow2(b)
  {
    if b > 0 {
      Pow2Add(a, b - 1);
      assert Pow2(a + b) == 2 * Pow2(a + b - 1);
    }
  }

  /** A narrower access width never has a larger size. */
  lemma {:induction false} Pow2Monotone(a: nat, b: nat)
    requires a <= b
    ensures Pow2(a) <= Pow2(b)
  {
    if a < b {
      Pow2Monotone(a, b - 1);
    }
  }

  /** The four access widths of a configuration cycle fit a 64-bit buffer. */
  lemma Pow2AtMost8(n: nat)
    requires n <= 3
    ensures Pow2(n) <= 8
  {
    if n > 0 {
      Pow2Monotone(n, 3);
    }
  }

  /** a less its remainder is a whole multiple of p. */
  lemma RoundDown(a: nat, p: nat)
    requires p >= 1
    ensures a - a % p >= 0 && (a - a % p) % p == 0
  {
    var q := a / p;
    assert a - Rem(a, p) == p * q;
    MultipleRem(p, q);
  }

  /** p * k is at least p for a positive k. */
  lemma {:induction false} MulAtLeast(p: nat, k: nat)
    requires k >= 1
    ensures p * k >= p
  {
    if k > 1 {
      MulAtLeast(p, k - 1);
      assert p * k == p * (k - 1) + p;
    }
  }

  /** A whole multiple of p leaves no remainder. */
  lemma MultipleRem(p: nat, q: nat)
    requires p >= 1
    ensures (p * q) % p == 0
  {
    var x := p * q;
    var d, m := x / p, x % p;
    assert x == p * d + m;
    if q > d {
      MulAtLeast(p, q - d);
    } else if q < d {
      MulAtLeast(p, d - q);
    }
  }

  /** a mod p, for a positive p. */
  function Rem(a: nat, p: nat): (r: nat)
    requires p >= 1
    ensures r < p && r <= a
  {
    a % p
  }

  /** n zero bytes. */
  function Zeros(n: nat): (r: seq<bv8>)
    ensures |r| == n
    ensures forall k :: 0 <= k < n ==> r[k] == 0
  {
    seq(n, k => 0)
  }

  /** Bytes c, c + 1, ..., c + n - 1 of b, reading zero past its end: what a zero-extended
      buffer holds after it has been shifted right by c bytes. */
  function Window(b: seq<bv8>, c: nat, n: nat): (r: seq<bv8>)
    ensures |r| == n
    ensures forall k :: 0 <= k < n ==> r[k] == if c + k < |b| then b[c + k] else 0
  {
    seq(n, k requires 0 <= k < n => if c + k < |b| then b[c + k] else 0)
  }

  /** `RShiftU64 (Data, n * 8)` on the 8-byte image: the bytes move down by n places
      and zeros come in at the top. */
  function ShiftDown(d: seq<bv8>, n: nat): (r: seq<bv8>)
    ensures |r| == |d|
    ensures forall k :: 0 <= k < |d| ==> r[k] == if k + n < |d| then d[k + n] else 0
  {
    Window(d, n, |d|)
  }

  /** Shifting a window that reaches past the end of b is a window further along. */
  lemma ShiftWindow(b: seq<bv8>, c: nat, n: nat, m: nat)
    requires |b| <= c + m
    ensures ShiftDown(Window(b, c, m), n) == Window(b, c + n, m)
  {
  }

  /** The 32-bit value the first four bytes of a little-endian buffer hold. */
  function Dword(b: seq<bv8>): bv32
    requires |b| >= 4
  {
    (b[0] as bv32) | ((b[1] as bv32) << 8) | ((b[2] as bv32) << 16) | ((b[3] as bv32) << 24)
  }

  /** The four little-endian bytes of a 32-bit value. */
  function DwordBytes(x: bv32): (r: seq<bv8>)
    ensures |r| == 4
  {
    [(x & 0xFF) as bv8, ((x >> 8) & 0xFF) as bv8, ((x >> 16) & 0xFF) as bv8, ((x >> 24) & 0xFF) as bv8]
  }

  /** Low half of a 32-bit register: `Value & 0xffff`. */
  function Low16(x: bv32): bv32
  {
    x & 0xFFFF
  }

  /** High half of a 32-bit register: `Value >> 16`. */
  function High16(x: bv32): bv32
  {
    x >> 16
  }

  /** The low half of a register is its first two bytes. */
  lemma Low16OfBytes(b: seq<bv8>)
    requires |b| >= 4
    ensures Low16(Dword(b)) == (b[0] as bv32) | ((b[1] as bv32) << 8)
  {
  }

  /** The high half of a register is its last two bytes. */
  lemma High16OfBytes(b: seq<bv8>)
    requires |b| >= 4
    ensures High16(Dword(b)) == (b[2] as bv32) | ((b[3] as bv32) << 8)
  {
  }

  /** The low 32 bits of a 64-bit value: `(UINT32) x`. */
  function Low32(x: bv64): bv32
  {
    (x & 0xFFFF_FFFF) as bv32
  }
}
