/** Kernel-side vocabulary shared by every driver: bytes, process identifiers,
    the kernel's error codes, the results drivers hand back, and the two
    integer casts the drivers perform (`as u32`, `as u8`). */
module Tock {

  /** A `u8`. */
  newtype byte = x: int | 0 <= x < 256

  /** A process identifier, abstracted to a number. */
  type ProcessId = nat

  /** `kernel::ErrorCode`, the subset of variants these drivers produce. */
  datatype ErrorCode = FAIL | BUSY | INVAL | SIZE | NOMEM | NOSUPPORT

  /** `Result<(), ErrorCode>`. */
  datatype Result = Ok | Err(code: ErrorCode)

  /** `CommandReturn`, as far as these drivers use it. */
  datatype CommandReturn = Success | Failure(code: ErrorCode)

  /** `Option<T>`, and the kernel's `OptionalCell`/`TakeCell` when they hold
      a value. */
  datatype Option<T> = None | Some(value: T)

  /** The result of a call that may stop the kernel with a panic (an index
      past the end of an array in Rust) instead of returning. */
  datatype Outcome<T> = Returns(value: T) | Panics

  const U32_MODULUS: nat := 0x1_0000_0000

  /** `x as u32` for a `usize` value: keeps the low 32 bits. */
  function AsU32(x: nat): (r: nat)
    ensures r < U32_MODULUS
    ensures x < U32_MODULUS ==> r == x
  {
    x % U32_MODULUS
  }

  /** `x as u8` for a `usize` value: keeps the low 8 bits. */
  function AsU8(x: nat): (r: byte)
    ensures r as int == x % 256
    ensures x < 256 ==> r as int == x
  {
    (x % 256) as byte
  }

  /** `b as char` in Rust, or a C `char` read as a code point: the character
      whose code is the byte's value. */
  function CharOf(b: byte): (c: char)
    ensures c as int == b as int
  {
    (b as int) as char
  }

  function Min(a: nat, b: nat): nat { if a < b then a else b }

  function Pow2(k: nat): (r: nat)
    ensures r >= 1
  {
    if k == 0 then 1 else 2 * Pow2(k - 1)
  }

  /** `x >> k` on an unsigned integer, as `k` halvings (rounding down). */
  function Shr(x: nat, k: nat): nat {
    if k == 0 then x else Shr(x / 2, k - 1)
  }

  /** Shifting one place further halves the result. */
  lemma {:induction false} ShrOneMore(x: nat, k: nat)
    ensures Shr(x, k + 1) == Shr(x, k) / 2
  {
    if k > 0 {
      ShrOneMore(x / 2, k - 1);
    }
  }

  /** `x >> k` is non-zero exactly when `x` has a bit at position `k` or
      above. */
  lemma {:induction false} ShrNonZero(x: nat, k: nat)
    ensures Shr(x, k) != 0 <==> x >= Pow2(k)
  {
    if k > 0 {
      ShrNonZero(x / 2, k - 1);
    }
  }

  lemma {:induction false} Pow2Monotone(j: nat, k: nat)
    requires j <= k
    ensures Pow2(j) <= Pow2(k)
  {
    if j < k {
      Pow2Monotone(j, k - 1);
    }
  }

  lemma Pow2Of25()
    ensures Pow2(25) == 0x200_0000
  {
    assert Pow2(10) == 1024;
    assert Pow2(20) == 1048576;
  }

  /** Reference definition of the copy loop's effect: the contents of `dst`
      once its first `k` bytes have been overwritten by the first `k` bytes
      of `src`. `CopyPrefix` is proved to compute it. */
  function Overwrite(dst: seq<byte>, src: seq<byte>, k: nat): (r: seq<byte>)
    requires k <= |dst| && k <= |src|
    ensures |r| == |dst|
    ensures forall i :: 0 <= i < k ==> r[i] == src[i]
    ensures forall i :: k <= i < |dst| ==> r[i] == dst[i]
  {
    src[..k] + dst[k..]
  }

  /** The copy loop `for i in 0..k { dst[i] = src[i] }`. */
  method CopyPrefix(dst: array<byte>, src: array<byte>, k: nat)
    requires dst != src
    requires k <= dst.Length && k <= src.Length
    modifies dst
    ensures dst[..] == Overwrite(old(dst[..]), src[..], k)
  {
    for i := 0 to k
      invariant forall j :: 0 <= j < i ==> dst[j] == src[j]
      invariant forall j :: i <= j < dst.Length ==> dst[j] == old(dst[j])
    {
      dst[i] := src[i];
    }
  }
}
