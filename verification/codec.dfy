/**
 The byte-level building blocks of every canonical encoding, each with a reader that undoes it.
 A reader takes the front of its input and hands back the rest, so encodings that are
 concatenations are undone field by field.
 */
module Codec {
  import opened Bytes

  // ---- big-endian integers ----

  function Pow256(n: nat): (p: nat)
    ensures p >= 1
  {
    if n == 0 then 1 else 0x100 * Pow256(n - 1)
  }

  /** Byte `k` of `v`, counting from the least significant. */
  function ByteOf(v: nat, k: nat): byte {
    if k == 0 then (v % 0x100) as byte else ByteOf(v / 0x100, k - 1)
  }

  /** The `n` low-order bytes of `v`, most significant first. */
  function BigEndian(v: nat, n: nat): (b: Bytes)
    ensures |b| == n
  {
    seq(n, i requires 0 <= i < n => ByteOf(v, n - 1 - i))
  }

  function FromBigEndian(b: Bytes): nat {
    if b == [] then 0 else FromBigEndian(b[..|b| - 1]) * 0x100 + b[|b| - 1] as int
  }

  lemma {:induction false} BigEndianInverse(v: nat, n: nat)
    requires v < Pow256(n)
    ensures FromBigEndian(BigEndian(v, n)) == v
  {
    if n > 0 {
      BigEndianInverse(v / 0x100, n - 1);
      forall i | 0 <= i < n - 1 ensures BigEndian(v, n)[i] == BigEndian(v / 0x100, n - 1)[i] {
        assert ByteOf(v, n - 1 - i) == ByteOf(v / 0x100, n - 2 - i);
      }
      assert BigEndian(v, n)[..n - 1] == BigEndian(v / 0x100, n - 1);
      assert BigEndian(v, n)[n - 1] == ByteOf(v, 0);
    }
  }

  lemma Widths()
    ensures Pow256(4) == U32_MAX + 1
    ensures Pow256(8) == U64_MAX + 1
  {
    assert Pow256(1) == 0x100;
    assert Pow256(2) == 0x1_0000;
    assert Pow256(3) == 0x100_0000;
    assert Pow256(4) == 0x1_0000_0000;
    assert Pow256(5) == 0x100_0000_0000;
    assert Pow256(6) == 0x1_0000_0000_0000;
    assert Pow256(7) == 0x100_0000_0000_0000;
  }

  function PutU32(v: U32): Bytes { BigEndian(v, 4) }

  /** Two's complement, as `i64::to_be_bytes`. */
  function PutI64(v: I64): (b: Bytes)
    ensures |b| == 8
  {
    BigEndian(if v < 0 then v + U64_MAX + 1 else v, 8)
  }

  /** `(len as u32).to_be_bytes()`: a length beyond u32 wraps. */
  function PutLen32(len: nat): (b: Bytes)
    ensures |b| == 4
  {
    BigEndian(len % 0x1_0000_0000, 4)
  }

  /** `(len as u64).to_be_bytes()`. A Rust length always fits 64 bits. */
  function PutLen64(len: nat): (b: Bytes)
    ensures |b| == 8
  {
    BigEndian(len % 0x1_0000_0000_0000_0000, 8)
  }

  function PutBool(b: bool): byte { if b then 1 else 0 }

  /** `push_len_prefixed`. */
  function PutField32(b: Bytes): Bytes { PutLen32(|b|) + b }

  function PutField64(b: Bytes): Bytes { PutLen64(|b|) + b }

  // ---- readers ----

  /** What a reader took off the front, and what is left. */
  datatype Read<+T> = Read(value: T, rest: Bytes)

  function Take(b: Bytes, n: nat): Option<Read<Bytes>> {
    if n <= |b| then Some(Read(b[..n], b[n..])) else None
  }

  /** Drop an exact prefix. */
  function Expect(b: Bytes, prefix: Bytes): Option<Bytes> {
    if prefix <= b then Some(b[|prefix|..]) else None
  }

  function GetByte(b: Bytes): Option<Read<byte>> {
    if b == [] then None else Some(Read(b[0], b[1..]))
  }

  function GetBool(b: Bytes): Option<Read<bool>> {
    var tag :- GetByte(b);
    if tag.value == 0 then Some(Read(false, tag.rest))
    else if tag.value == 1 then Some(Read(true, tag.rest))
    else None
  }

  function GetNat(b: Bytes, width: nat): Option<Read<nat>> {
    var raw :- Take(b, width);
    Some(Read(FromBigEndian(raw.value), raw.rest))
  }

  function GetU32(b: Bytes): Option<Read<U32>> {
    var v :- GetNat(b, 4);
    if v.value <= U32_MAX then Some(Read(v.value, v.rest)) else None
  }

  function GetI64(b: Bytes): Option<Read<I64>> {
    var v :- GetNat(b, 8);
    if v.value <= I64_MAX then Some(Read(v.value, v.rest))
    else if v.value <= U64_MAX then Some(Read(v.value - U64_MAX - 1, v.rest))
    else None
  }

  function GetField32(b: Bytes): Option<Read<Bytes>> {
    var len :- GetNat(b, 4);
    Take(len.rest, len.value)
  }

  function GetField64(b: Bytes): Option<Read<Bytes>> {
    var len :- GetNat(b, 8);
    Take(len.rest, len.value)
  }

  // ---- each reader undoes its writer ----

  predicate Fits32(b: Bytes) { |b| <= U32_MAX }

  predicate Fits64(b: Bytes) { |b| <= U64_MAX }

  predicate OptFits32(t: Option<Text>) { t.Some? ==> Fits32(t.value) }

  lemma TakeOwn(a: Bytes, rest: Bytes)
    ensures Take(a + rest, |a|) == Some(Read(a, rest))
  {
    assert (a + rest)[..|a|] == a;
    assert (a + rest)[|a|..] == rest;
  }

  lemma ExpectOwn(prefix: Bytes, rest: Bytes)
    ensures Expect(prefix + rest, prefix) == Some(rest)
  {
    assert (prefix + rest)[|prefix|..] == rest;
  }

  lemma ByteBack(v: byte, rest: Bytes)
    ensures GetByte([v] + rest) == Some(Read(v, rest))
  {
    assert ([v] + rest)[1..] == rest;
  }

  lemma BoolBack(v: bool, rest: Bytes)
    ensures GetBool([PutBool(v)] + rest) == Some(Read(v, rest))
  {
    ByteBack(PutBool(v), rest);
  }

  lemma NatBack(v: nat, width: nat, rest: Bytes)
    requires v < Pow256(width)
    ensures GetNat(BigEndian(v, width) + rest, width) == Some(Read(v, rest))
  {
    TakeOwn(BigEndian(v, width), rest);
    BigEndianInverse(v, width);
  }

  lemma U32Back(v: U32, rest: Bytes)
    ensures GetU32(PutU32(v) + rest) == Some(Read(v, rest))
  {
    Widths();
    NatBack(v, 4, rest);
  }

  lemma I64Back(v: I64, rest: Bytes)
    ensures GetI64(PutI64(v) + rest) == Some(Read(v, rest))
  {
    Widths();
    NatBack(if v < 0 then v + U64_MAX + 1 else v, 8, rest);
  }

  lemma Len32Exact(len: nat)
    requires len <= U32_MAX
    ensures len < Pow256(4) && PutLen32(len) == BigEndian(len, 4)
  {
    Widths();
    assert len % 0x1_0000_0000 == len;
  }

  lemma Len64Exact(len: nat)
    requires len <= U64_MAX
    ensures len < Pow256(8) && PutLen64(len) == BigEndian(len, 8)
  {
    Widths();
    assert len % 0x1_0000_0000_0000_0000 == len;
  }

  lemma Field32Back(b: Bytes, rest: Bytes)
    requires Fits32(b)
    ensures GetField32(PutField32(b) + rest) == Some(Read(b, rest))
  {
    Len32Exact(|b|);
    assert PutField32(b) + rest == BigEndian(|b|, 4) + (b + rest);
    NatBack(|b|, 4, b + rest);
    TakeOwn(b, rest);
  }

  lemma Field64Back(b: Bytes, rest: Bytes)
    requires Fits64(b)
    ensures GetField64(PutField64(b) + rest) == Some(Read(b, rest))
  {
    Len64Exact(|b|);
    assert PutField64(b) + rest == BigEndian(|b|, 8) + (b + rest);
    NatBack(|b|, 8, b + rest);
    TakeOwn(b, rest);
  }

  // ---- tagged options ----

  /** A tag byte, then four bytes that are zero when the value is absent. */
  function PutOptU32(v: Option<U32>): Bytes {
    match v
    case None => [0] + PutU32(0)
    case Some(x) => [1] + PutU32(x)
  }

  function GetOptU32(b: Bytes): Option<Read<Option<U32>>> {
    var present :- GetBool(b);
    var v :- GetU32(present.rest);
    if present.value then Some(Read(Some(v.value), v.rest))
    else if v.value == 0 then Some(Read(None, v.rest))
    else None
  }

  lemma OptU32Back(v: Option<U32>, rest: Bytes)
    ensures GetOptU32(PutOptU32(v) + rest) == Some(Read(v, rest))
  {
    var x := if v.Some? then v.value else 0;
    assert PutOptU32(v) + rest == [PutBool(v.Some?)] + (PutU32(x) + rest);
    BoolBack(v.Some?, PutU32(x) + rest);
    U32Back(x, rest);
  }

  /** A tag byte, then the length-prefixed field when present. */
  function PutOptField32(v: Option<Bytes>): Bytes {
    match v
    case None => [0]
    case Some(x) => [1] + PutField32(x)
  }

  function GetOptField32(b: Bytes): Option<Read<Option<Bytes>>> {
    var present :- GetBool(b);
    if !present.value then Some(Read(None, present.rest))
    else
      var v :- GetField32(present.rest);
      Some(Read(Some(v.value), v.rest))
  }

  lemma OptField32Back(v: Option<Bytes>, rest: Bytes)
    requires OptFits32(v)
    ensures GetOptField32(PutOptField32(v) + rest) == Some(Read(v, rest))
  {
    match v
    case None => BoolBack(false, rest);
    case Some(x) =>
      assert PutOptField32(v) + rest == [PutBool(true)] + (PutField32(x) + rest);
      BoolBack(true, PutField32(x) + rest);
      Field32Back(x, rest);
  }

  function PutOptField64(v: Option<Bytes>): Bytes {
    match v
    case None => [0]
    case Some(x) => [1] + PutField64(x)
  }

  function GetOptField64(b: Bytes): Option<Read<Option<Bytes>>> {
    var present :- GetBool(b);
    if !present.value then Some(Read(None, present.rest))
    else
      var v :- GetField64(present.rest);
      Some(Read(Some(v.value), v.rest))
  }

  lemma OptField64Back(v: Option<Bytes>, rest: Bytes)
    requires v.Some? ==> Fits64(v.value)
    ensures GetOptField64(PutOptField64(v) + rest) == Some(Read(v, rest))
  {
    match v
    case None => BoolBack(false, rest);
    case Some(x) =>
      assert PutOptField64(v) + rest == [PutBool(true)] + (PutField64(x) + rest);
      BoolBack(true, PutField64(x) + rest);
      Field64Back(x, rest);
  }

  const ZERO32: Digest := BigEndian(0, 32)

  /** A tag byte, then 32 bytes that are zero when the value is absent. */
  function PutOptDigest(v: Option<Digest>): Bytes {
    match v
    case None => [0] + ZERO32
    case Some(d) => [1] + d
  }

  function GetOptDigest(b: Bytes): Option<Read<Option<Digest>>> {
    var present :- GetBool(b);
    var d :- Take(present.rest, 32);
    if present.value then Some(Read(Some(d.value), d.rest))
    else if d.value == ZERO32 then Some(Read(None, d.rest))
    else None
  }

  lemma OptDigestBack(v: Option<Digest>, rest: Bytes)
    ensures GetOptDigest(PutOptDigest(v) + rest) == Some(Read(v, rest))
  {
    var d: Digest := if v.Some? then v.value else ZERO32;
    assert PutOptDigest(v) + rest == [PutBool(v.Some?)] + (d + rest);
    BoolBack(v.Some?, d + rest);
    TakeOwn(d, rest);
  }
}
