/** Option and Result, used where the Go code returns a value or an error. */
module Wrappers {
  datatype Option<+T> = None | Some(value: T)

  datatype Result<+T, +E> = Ok(value: T) | Err(error: E)
}

/** The fixed-width integers and byte strings of the Go program. */
module Machine {
  const TWO64: int := 0x1_0000_0000_0000_0000
  const MAX64: int := 0xFFFF_FFFF_FFFF_FFFF
  const TWO63: int := 0x8000_0000_0000_0000
  const TWO32: int := 0x1_0000_0000
  const MAX_INT32: int := 0x7FFF_FFFF

  type uint64 = x: int | 0 <= x <= MAX64
  type int64 = x: int | -TWO63 <= x < TWO63
  type uint32 = x: int | 0 <= x < TWO32
  type uint8 = x: int | 0 <= x < 256

  /** Go's `[]byte` and `string`: both are byte sequences compared byte by byte. */
  type Bytes = seq<uint8>
  type Address = Bytes
  type Hash = h: Bytes | |h| == 32 witness seq(32, _ => 0)

  const ZERO_HASH: Hash := [
    0, 0, 0, 0, 0, 0, 0, 0, 0, 0, 0, 0, 0, 0, 0, 0, 0, 0, 0, 0, 0, 0, 0, 0, 0, 0, 0, 0, 0, 0, 0, 0]

  /** Conversion to uint64 and every unchecked uint64 operation: reduction modulo 2^64. */
  function Wrap64(x: int): uint64 { x % TWO64 }

  /** `int64(v)` for a uint64, and every unchecked int64 operation. */
  function ToSigned(v: uint64): int64 { if v < TWO63 then v else v - TWO64 }

  function WrapSigned(x: int): int64 { ToSigned(Wrap64(x)) }

  /** `uint64(t)` for an int64. */
  function ToUnsigned(t: int64): uint64 { Wrap64(t) }

  /** `uint64(len(b))`. */
  function Len64(b: Bytes): uint64 { Wrap64(|b|) }

  lemma SignedRoundTrip(t: int64)
    ensures ToSigned(ToUnsigned(t)) == t
  {
    if t < 0 {
      assert (t + TWO64) % TWO64 == t % TWO64;
    }
  }

  lemma WrapSignedSmall(x: int)
    requires -TWO63 <= x < TWO63
    ensures WrapSigned(x) == x
  {
    SignedRoundTrip(x);
  }

  lemma WrapNext(x: int, d: int)
    ensures Wrap64(Wrap64(x + 1) + d) == Wrap64(x + 1 + d)
  {
  }

  lemma WrapAdd(x: int, d: int)
    ensures Wrap64(Wrap64(x) + d) == Wrap64(x + d)
  {
  }

  lemma SmallWrap()
    ensures forall x: int {:trigger Wrap64(x)} :: 0 <= x <= MAX64 ==> Wrap64(x) == x
  {
  }

  lemma WrapDistinct(x: int, c: int, d: int)
    requires c < d < c + TWO64
    ensures Wrap64(x + c) != Wrap64(x + d)
  {
  }

  function Min(a: int, b: int): int { if a <= b then a else b }
}
