/** Machine integers, byte strings and the small failure type used throughout. */
module Bytes {

  datatype Option<+T> = None | Some(value: T) {
    predicate IsFailure() { None? }
    function PropagateFailure<U>(): Option<U> requires None? { None }
    function Extract(): T requires Some? { value }
  }

  datatype Result<+T, +E> = Ok(value: T) | Err(error: E)

  newtype byte = x: int | 0 <= x < 0x100

  type Bytes = seq<byte>

  /** A Rust string, as its UTF-8 bytes. */
  type Text = Bytes

  /** A BLAKE3 output, a MAC tag or a 256-bit key. */
  type Digest = b: Bytes | |b| == 32
    witness [0, 0, 0, 0, 0, 0, 0, 0, 0, 0, 0, 0, 0, 0, 0, 0, 0, 0, 0, 0, 0, 0, 0, 0, 0, 0, 0, 0, 0, 0, 0, 0]

  const U32_MAX: int := 0xFFFF_FFFF
  const U64_MAX: int := 0xFFFF_FFFF_FFFF_FFFF
  const I64_MAX: int := 0x7FFF_FFFF_FFFF_FFFF
  const I64_MIN: int := -0x8000_0000_0000_0000

  type U32 = x: int | 0 <= x <= 0xFFFF_FFFF
  type U64 = x: int | 0 <= x <= 0xFFFF_FFFF_FFFF_FFFF
  type I64 = x: int | -0x8000_0000_0000_0000 <= x <= 0x7FFF_FFFF_FFFF_FFFF

  /** The clamp behind Rust's saturating i64 arithmetic. */
  function Saturate(x: int): I64 {
    if x > I64_MAX then I64_MAX else if x < I64_MIN then I64_MIN else x
  }

  /** i64 addition of one, wrapping. */
  function Succ64(x: I64): I64 { if x == I64_MAX then I64_MIN else x + 1 }

  /** u32 addition of one, wrapping. */
  function Succ32(v: U32): U32 { if v == U32_MAX then 0 else v + 1 }

  function Min(a: int, b: int): int { if a <= b then a else b }

  function Max(a: int, b: int): int { if a >= b then a else b }

  function Abs(x: int): int { if x < 0 then -x else x }

  /** An ASCII literal as bytes. */
  function Ascii(s: string): (t: Text)
    ensures |t| == |s|
  {
    seq(|s|, i requires 0 <= i < |s| => (s[i] as int % 0x100) as byte)
  }

  function AsciiLower(b: byte): byte {
    if 0x41 <= b <= 0x5A then b + 0x20 else b
  }

  /** `eq_ignore_ascii_case`: equal once the letters A to Z are lower-cased. */
  predicate EqIgnoreCase(a: Text, b: Text) {
    |a| == |b| && forall i :: 0 <= i < |a| ==> AsciiLower(a[i]) == AsciiLower(b[i])
  }

  predicate StartsWith(t: Text, prefix: Text) { prefix <= t }

  lemma Associate<T>(a: seq<T>, b: seq<T>, c: seq<T>)
    ensures (a + b) + c == a + (b + c)
  {
  }
}
