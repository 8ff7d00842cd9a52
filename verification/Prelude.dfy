/** Values shared by every component: bytes, optional values, results, and Go's built-in `copy`. */
module Prelude {
  newtype byte = x: int | 0 <= x < 256

  datatype Option<+T> = None | Some(value: T)

  datatype Result<+T, +E> = Ok(value: T) | Err(error: E)

  /** The largest value of Go's int64 (and of int on a 64-bit machine). */
  const INT64_MAX: int := 0x7fff_ffff_ffff_ffff
  const INT64_MIN: int := -0x8000_0000_0000_0000

  /** One more than the largest uint32. */
  const UINT32_RANGE: int := 0x1_0000_0000

  /** The bytes of an ASCII text. */
  function Chars(s: string): seq<byte>
    requires forall i :: 0 <= i < |s| ==> s[i] < 128 as char
  {
    seq(|s|, i requires 0 <= i < |s| => s[i] as byte)
  }

  function Min(a: int, b: int): int { if a <= b then a else b }

  function Max(a: int, b: int): int { if a >= b then a else b }

  /** Go's `copy(dst[at:], src)`: bytes that do not fit are dropped. */
  function CopyInto<T>(dst: seq<T>, at: nat, src: seq<T>): (r: seq<T>)
    requires at <= |dst|
    ensures |r| == |dst|
    ensures forall k :: 0 <= k < |dst| ==> r[k] == if at <= k < at + |src| then src[k - at] else dst[k]
  {
    var n := Min(|src|, |dst| - at);
    dst[..at] + src[..n] + dst[at + n..]
  }

  /** `copy` on a Go slice that covers the whole array. */
  method CopyBytes(dst: array<byte>, at: nat, src: seq<byte>)
    requires at <= dst.Length
    modifies dst
    ensures dst[..] == CopyInto(old(dst[..]), at, src)
  {
    var n := Min(|src|, dst.Length - at);
    forall k | 0 <= k < n { dst[at + k] := src[k]; }
  }

  // ---- Division ----

  lemma Monotone(p: nat, a: int, b: int)
    ensures a <= b ==> p * a <= p * b
  {
  }

  lemma Divide(n: nat, d: nat)
    requires d > 0
    ensures n == (n / d) * d + n % d
  {
  }

  /** A number is written in one way as a multiple and a remainder. */
  lemma {:induction false} SameParts(q: int, k: int, d: nat, r: nat, m: nat)
    requires r < d && m < d && q * d + r == k * d + m
    ensures q == k && r == m
  {
    var a, b := q * d, k * d;
    Monotone(d, q + 1, k);
    Monotone(d, k + 1, q);
    assert d * (q + 1) == a + d && d * (k + 1) == b + d && d * q == a && d * k == b;
  }

  /** Quotient and remainder are unique. */
  lemma {:induction false} DivModUnique(q: nat, d: nat, r: nat)
    requires r < d
    ensures (q * d + r) / d == q && (q * d + r) % d == r
  {
    var n := q * d + r;
    Divide(n, d);
    SameParts(q, n / d, d, r, n % d);
  }
}
