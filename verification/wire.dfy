/** Text formats: hex, unpadded base64url, decimal integers and the wire bearer. */
module Wire {
  import opened Bytes

  // ---- hex ----

  function HexDigit(n: int): byte
    requires 0 <= n < 16
  {
    if n < 10 then (0x30 + n) as byte else (0x57 + n) as byte
  }

  /** `char::to_digit(16)` of a byte: either case is read. */
  function HexValue(b: byte): Option<int> {
    if 0x30 <= b <= 0x39 then Some(b as int - 0x30)
    else if 0x61 <= b <= 0x66 then Some(b as int - 0x57)
    else if 0x41 <= b <= 0x46 then Some(b as int - 0x37)
    else None
  }

  function HexPair(b: byte): Text { [HexDigit(b as int / 16), HexDigit(b as int % 16)] }

  function HexText(b: Bytes): Text {
    if b == [] then [] else HexText(b[..|b| - 1]) + HexPair(b[|b| - 1])
  }

  /** Two digits a byte, in lower case. */
  lemma {:induction false} HexIsLower(b: Bytes)
    ensures |HexText(b)| == 2 * |b|
    ensures forall i :: 0 <= i < |HexText(b)| ==> 0x30 <= HexText(b)[i] <= 0x39 || 0x61 <= HexText(b)[i] <= 0x66
  {
    if b != [] {
      HexIsLower(b[..|b| - 1]);
    }
  }

  /** Digits `2i` and `2i + 1` of `s` spell the byte `v`. */
  predicate PairAt(s: Text, i: nat, v: byte)
    requires 2 * i + 1 < |s|
  {
    var hi, lo := HexValue(s[2 * i]), HexValue(s[2 * i + 1]);
    hi.Some? && lo.Some? && v as int == hi.value * 16 + lo.value
  }

  predicate IsHexOf(s: Text, b: Bytes) {
    |s| == 2 * |b| && forall i :: 0 <= i < |b| ==> PairAt(s, i, b[i])
  }

  /** The bytes a string of hex digits spells, if it is one. */
  function UnHex(s: Text): Option<Bytes> {
    if s == [] then Some([])
    else if |s| == 1 then None
    else
      var n := |s| - 2;
      var front := UnHex(s[..n]);
      if front.None? || HexValue(s[n]).None? || HexValue(s[n + 1]).None? then None
      else Some(front.value + [(HexValue(s[n]).value * 16 + HexValue(s[n + 1]).value) as byte])
  }

  lemma {:induction false} UnHexExact(s: Text, b: Bytes)
    ensures UnHex(s) == Some(b) <==> IsHexOf(s, b)
  {
    if |s| < 2 {
      return;
    }
    var n := |s| - 2;
    if b != [] {
      var k := |b| - 1;
      UnHexExact(s[..n], b[..k]);
      if IsHexOf(s, b) {
        assert PairAt(s, k, b[k]);
        forall i | 0 <= i < k ensures PairAt(s[..n], i, b[..k][i]) {
          assert PairAt(s, i, b[i]);
        }
        assert b == b[..k] + [b[k]];
      }
      if UnHex(s) == Some(b) {
        forall i | 0 <= i < |b| ensures PairAt(s, i, b[i]) {
          if i < k {
            assert PairAt(s[..n], i, b[..k][i]);
          }
        }
      }
    }
  }

  method HexEncode(b: Bytes) returns (s: Text)
    ensures s == HexText(b)
  {
    s := [];
    for i := 0 to |b|
      invariant s == HexText(b[..i])
    {
      assert b[..i + 1][..i] == b[..i];
      s := s + [HexDigit(b[i] as int / 16)];
      s := s + [HexDigit(b[i] as int % 16)];
    }
    assert b[..|b|] == b;
  }

  method HexDecode(s: Text) returns (r: Option<Bytes>)
    ensures r == UnHex(s)
  {
    ghost var spelled := UnHex(s);
    if spelled.Some? {
      UnHexExact(s, spelled.value);
    }
    if |s| % 2 != 0 {
      return None;
    }
    var out: Bytes := [];
    var i := 0;
    while i < |s|
      invariant 0 <= i <= |s| && i == 2 * |out|
      invariant forall k :: 0 <= k < |out| ==> PairAt(s, k, out[k])
    {
      assert spelled.Some? ==> PairAt(s, |out|, spelled.value[|out|]);
      var hi := HexValue(s[i]);
      if hi.None? {
        return None;
      }
      var lo := HexValue(s[i + 1]);
      if lo.None? {
        return None;
      }
      assert PairAt(s, |out|, (hi.value * 16 + lo.value) as byte);
      out := out + [(hi.value * 16 + lo.value) as byte];
      i := i + 2;
    }
    UnHexExact(s, out);
    return Some(out);
  }

  lemma HexRoundTrip(b: Bytes)
    ensures UnHex(HexText(b)) == Some(b)
  {
    HexSpells(b);
    UnHexExact(HexText(b), b);
  }

  lemma {:induction false} HexSpells(b: Bytes)
    ensures IsHexOf(HexText(b), b)
  {
    if b != [] {
      var n := |b| - 1;
      HexSpells(b[..n]);
      assert HexText(b) == HexText(b[..n]) + HexPair(b[n]);
      forall i | 0 <= i < |b| ensures PairAt(HexText(b), i, b[i]) {
        if i < n {
          assert PairAt(HexText(b[..n]), i, b[..n][i]);
        }
      }
    }
  }

  lemma HexInjective(a: Bytes, b: Bytes)
    requires HexText(a) == HexText(b)
    ensures a == b
  {
    HexRoundTrip(a);
    HexRoundTrip(b);
  }

  lemma {:induction false} HexIsAlphanumeric(b: Bytes)
    ensures |HexText(b)| == 2 * |b|
    ensures forall i :: 0 <= i < |HexText(b)| ==> IsAlphanumeric(HexText(b)[i])
  {
    if b != [] {
      HexIsAlphanumeric(b[..|b| - 1]);
    }
  }

  // ---- base64url without padding (section 5 of RFC 4648) ----

  function Symbol(v: int): byte
    requires 0 <= v < 64
  {
    if v < 26 then (0x41 + v) as byte
    else if v < 52 then (0x47 + v) as byte
    else if v < 62 then (v - 4) as byte
    else if v == 62 then 0x2D
    else 0x5F
  }

  function SymbolValue(b: byte): Option<int> {
    if 0x41 <= b <= 0x5A then Some(b as int - 0x41)
    else if 0x61 <= b <= 0x7A then Some(b as int - 0x47)
    else if 0x30 <= b <= 0x39 then Some(b as int + 4)
    else if b == 0x2D then Some(62)
    else if b == 0x5F then Some(63)
    else None
  }

  /** The 24-bit group of up to three bytes, missing ones read as zero. */
  function Group(b: Bytes): int
    requires 1 <= |b| <= 3
  {
    b[0] as int * 0x1_0000
    + (if |b| > 1 then b[1] as int else 0) * 0x100
    + (if |b| > 2 then b[2] as int else 0)
  }

  /** One more symbol than bytes. */
  function Chunk(b: Bytes): (t: Text)
    requires 1 <= |b| <= 3
    ensures |t| == |b| + 1
  {
    var n := Group(b);
    [Symbol(n / 0x4_0000 % 64), Symbol(n / 0x1000 % 64)]
    + (if |b| > 1 then [Symbol(n / 64 % 64)] else [])
    + (if |b| > 2 then [Symbol(n % 64)] else [])
  }

  function B64Text(b: Bytes): Text {
    if b == [] then []
    else if |b| <= 3 then Chunk(b)
    else Chunk(b[..3]) + B64Text(b[3..])
  }

  /** The loop over three-byte chunks. */
  method B64UrlNoPad(b: Bytes) returns (s: Text)
    ensures s == B64Text(b)
  {
    s := [];
    var i := 0;
    while i < |b|
      invariant 0 <= i <= |b|
      invariant s + B64Text(b[i..]) == B64Text(b)
    {
      var end := if i + 3 <= |b| then i + 3 else |b|;
      var t := EncodeChunk(b[i..end]);
      B64Advance(s, b, i, end);
      s := s + t;
      i := end;
    }
    assert s + [] == s;
  }

  method EncodeChunk(chunk: Bytes) returns (t: Text)
    requires 1 <= |chunk| <= 3
    ensures t == Chunk(chunk)
  {
    var n := Group(chunk);
    t := [Symbol(n / 0x4_0000 % 64)];
    t := t + [Symbol(n / 0x1000 % 64)];
    if |chunk| > 1 {
      t := t + [Symbol(n / 64 % 64)];
    }
    if |chunk| > 2 {
      t := t + [Symbol(n % 64)];
    }
  }

  lemma B64Advance(s: Text, b: Bytes, i: nat, end: nat)
    requires i < |b| && end == Min(i + 3, |b|)
    ensures (s + Chunk(b[i..end])) + B64Text(b[end..]) == s + B64Text(b[i..])
  {
    B64Step(b[i..]);
    assert b[i..][..end - i] == b[i..end] && b[i..][end - i..] == b[end..];
    Associate(s, Chunk(b[i..end]), B64Text(b[end..]));
  }

  lemma B64Step(b: Bytes)
    requires b != []
    ensures var k := Min(3, |b|); B64Text(b) == Chunk(b[..k]) + B64Text(b[k..])
  {
    if |b| <= 3 {
      assert b[..|b|] == b && b[|b|..] == [];
    }
  }

  function Sextet(s: Text, i: nat): int {
    if i < |s| && SymbolValue(s[i]).Some? then SymbolValue(s[i]).value else 0
  }

  /** The bytes behind two, three or four symbols. */
  function UnChunk(s: Text): Bytes {
    var n := Sextet(s, 0) * 0x4_0000 + Sextet(s, 1) * 0x1000 + Sextet(s, 2) * 64 + Sextet(s, 3);
    [(n / 0x1_0000 % 0x100) as byte]
    + (if |s| > 2 then [(n / 0x100 % 0x100) as byte] else [])
    + (if |s| > 3 then [(n % 0x100) as byte] else [])
  }

  function B64Decode(s: Text): Bytes {
    if s == [] then []
    else if |s| <= 4 then UnChunk(s)
    else UnChunk(s[..4]) + B64Decode(s[4..])
  }

  lemma SymbolBack(v: int)
    requires 0 <= v < 64
    ensures SymbolValue(Symbol(v)) == Some(v)
  {
  }

  lemma Regroup(n: int)
    requires 0 <= n < 0x100_0000
    ensures n == (n / 0x4_0000 % 64) * 0x4_0000 + (n / 0x1000 % 64) * 0x1000 + (n / 64 % 64) * 64 + n % 64
  {
    var low := n / 64;
    var mid := low / 64;
    assert mid == n / 0x1000 && mid / 64 == n / 0x4_0000 < 64;
    assert n == low * 64 + n % 64 && low == mid * 64 + low % 64;
  }

  lemma GroupLow(b: Bytes)
    requires 1 <= |b| <= 3
    ensures 0 <= Group(b) < 0x100_0000
    ensures |b| == 1 ==> Group(b) / 64 % 64 == 0
    ensures |b| <= 2 ==> Group(b) % 64 == 0
    ensures Group(b) / 0x1_0000 % 0x100 == b[0] as int
    ensures |b| > 1 ==> Group(b) / 0x100 % 0x100 == b[1] as int
    ensures |b| > 2 ==> Group(b) % 0x100 == b[2] as int
  {
  }

  lemma UnChunkGroup(b: Bytes)
    requires 1 <= |b| <= 3
    ensures var s := Chunk(b);
            Sextet(s, 0) * 0x4_0000 + Sextet(s, 1) * 0x1000 + Sextet(s, 2) * 64 + Sextet(s, 3) == Group(b)
  {
    var n := Group(b);
    GroupLow(b);
    SymbolBack(n / 0x4_0000 % 64);
    SymbolBack(n / 0x1000 % 64);
    SymbolBack(n / 64 % 64);
    SymbolBack(n % 64);
    Regroup(n);
  }

  lemma ChunkBack(b: Bytes)
    requires 1 <= |b| <= 3
    ensures UnChunk(Chunk(b)) == b
  {
    UnChunkGroup(b);
    GroupLow(b);
  }

  lemma {:induction false} B64RoundTrip(b: Bytes)
    ensures B64Decode(B64Text(b)) == b
  {
    if 0 < |b| <= 3 {
      ChunkBack(b);
    } else if |b| > 3 {
      ChunkBack(b[..3]);
      B64RoundTrip(b[3..]);
      var s := B64Text(b);
      assert s[..4] == Chunk(b[..3]) && s[4..] == B64Text(b[3..]);
      B64Nonempty(b[3..]);
      assert b == b[..3] + b[3..];
    }
  }

  lemma B64Nonempty(b: Bytes)
    requires b != []
    ensures |B64Text(b)| >= 2
  {
  }

  lemma B64Injective(a: Bytes, b: Bytes)
    requires B64Text(a) == B64Text(b)
    ensures a == b
  {
    B64RoundTrip(a);
    B64RoundTrip(b);
  }

  /** Unpadded length, and only symbols of the URL-safe alphabet. */
  lemma {:induction false} B64Shape(b: Bytes)
    ensures |B64Text(b)| == (4 * |b| + 2) / 3
    ensures forall i :: 0 <= i < |B64Text(b)| ==> SymbolValue(B64Text(b)[i]).Some?
  {
    if |b| > 3 {
      B64Shape(b[3..]);
    }
  }

  // ---- decimal i64, as `to_string` and `parse` ----

  function Digits(n: nat): (t: Text)
    ensures |t| >= 1
  {
    if n < 10 then [(0x30 + n) as byte] else Digits(n / 10) + [(0x30 + n % 10) as byte]
  }

  function Decimal(v: int): Text { if v < 0 then [0x2D] + Digits(-v) else Digits(v) }

  function ParseDigits(t: Text): Option<nat> {
    if t == [] then Some(0)
    else
      var last := t[|t| - 1];
      var front := ParseDigits(t[..|t| - 1]);
      if front.Some? && 0x30 <= last <= 0x39 then Some(front.value * 10 + (last as int - 0x30)) else None
  }

  /** `str::parse::<i64>`: an optional sign, at least one digit, and in range. */
  function ParseI64(t: Text): Option<I64> {
    var signed := t != [] && (t[0] == 0x2D || t[0] == 0x2B);
    var digits := if signed then t[1..] else t;
    var n := ParseDigits(digits);
    if digits == [] || n.None? then None
    else InRange(Signed(signed && t[0] == 0x2D, n.value))
  }

  function Signed(negative: bool, n: int): int { if negative then -n else n }

  function InRange(v: int): Option<I64> { if I64_MIN <= v <= I64_MAX then Some(v) else None }

  lemma {:induction false} DigitsParse(n: nat)
    ensures ParseDigits(Digits(n)) == Some(n)
    ensures Digits(n)[0] != 0x2D && Digits(n)[0] != 0x2B
  {
    if n < 10 {
      assert Digits(n)[..0] == [];
    } else {
      DigitsParse(n / 10);
      assert Digits(n)[..|Digits(n)| - 1] == Digits(n / 10);
    }
  }

  lemma DecimalParses(v: int)
    requires I64_MIN <= v <= I64_MAX
    ensures ParseI64(Decimal(v)) == Some(v)
  {
    DigitsParse(Abs(v));
    if v < 0 {
      assert Decimal(v)[1..] == Digits(-v);
    }
  }

  // ---- the wire bearer ----

  const BEARER_PREFIX: Text := Ascii("evrelay_")
  const UNDERSCORE: byte := 0x5F

  predicate IsAlphanumeric(b: byte) {
    0x30 <= b <= 0x39 || 0x41 <= b <= 0x5A || 0x61 <= b <= 0x7A
  }

  /** Where the first `sep` is, or the length when there is none. */
  function IndexOf(t: Text, sep: byte): (i: nat)
    ensures i <= |t|
    ensures i < |t| ==> t[i] == sep
    ensures forall j :: 0 <= j < i ==> t[j] != sep
  {
    if t == [] || t[0] == sep then 0 else 1 + IndexOf(t[1..], sep)
  }

  /** The public token id of a well-formed bearer. */
  function ParseBearer(raw: Text): Option<Text> {
    if !StartsWith(raw, BEARER_PREFIX) then None
    else
      var rest := raw[|BEARER_PREFIX|..];
      var cut := IndexOf(rest, UNDERSCORE);
      if cut == |rest| || cut == 0 || cut + 1 == |rest| then None
      else if AllAlphanumeric(rest[..cut]) then Some(rest[..cut])
      else None
  }

  predicate AllAlphanumeric(t: Text) {
    forall i :: 0 <= i < |t| ==> IsAlphanumeric(t[i])
  }

  function WireBearer(tokenId: Text, secret: Text): Text {
    BEARER_PREFIX + (tokenId + ([UNDERSCORE] + secret))
  }

  /**
   Parsing finds exactly the strings that are the prefix, an alphanumeric token, an underscore and
   a non-empty secret, which may hold further underscores.
   */
  lemma ParseBearerExact(raw: Text, tokenId: Text)
    ensures ParseBearer(raw) == Some(tokenId) <==>
            (tokenId != [] && AllAlphanumeric(tokenId)
             && exists secret :: secret != [] && raw == WireBearer(tokenId, secret))
  {
    if ParseBearer(raw) == Some(tokenId) {
      var rest := raw[|BEARER_PREFIX|..];
      var secret := rest[|tokenId| + 1..];
      assert rest == tokenId + ([UNDERSCORE] + secret);
      assert raw == WireBearer(tokenId, secret);
    }
    if tokenId != [] && AllAlphanumeric(tokenId) {
      forall secret | secret != [] && raw == WireBearer(tokenId, secret)
        ensures ParseBearer(raw) == Some(tokenId)
      {
        WireParses(tokenId, secret);
      }
    }
  }

  lemma WireParses(tokenId: Text, secret: Text)
    requires tokenId != [] && AllAlphanumeric(tokenId) && secret != []
    ensures ParseBearer(WireBearer(tokenId, secret)) == Some(tokenId)
  {
    var raw := WireBearer(tokenId, secret);
    var rest := raw[|BEARER_PREFIX|..];
    assert rest == tokenId + ([UNDERSCORE] + secret);
    var cut := IndexOf(rest, UNDERSCORE);
    assert rest[|tokenId|] == UNDERSCORE;
    forall j | 0 <= j < |tokenId| ensures rest[j] != UNDERSCORE {
      assert IsAlphanumeric(tokenId[j]);
    }
    assert rest[..cut] == tokenId;
  }

  /** A minted bearer parses to its token id, whatever its random bytes. */
  lemma MintedBearerParses(tokenBytes: Bytes, secretBytes: Bytes)
    requires tokenBytes != [] && secretBytes != []
    ensures ParseBearer(WireBearer(HexText(tokenBytes), B64Text(secretBytes))) == Some(HexText(tokenBytes))
  {
    HexIsAlphanumeric(tokenBytes);
    B64Nonempty(secretBytes);
    WireParses(HexText(tokenBytes), B64Text(secretBytes));
  }

  /** Distinct random bytes give distinct bearers. */
  lemma MintedBearerInjective(t1: Bytes, s1: Bytes, t2: Bytes, s2: Bytes)
    requires t1 != [] && s1 != [] && t2 != [] && s2 != []
    requires WireBearer(HexText(t1), B64Text(s1)) == WireBearer(HexText(t2), B64Text(s2))
    ensures t1 == t2 && s1 == s2
  {
    MintedBearerParses(t1, s1);
    MintedBearerParses(t2, s2);
    HexInjective(t1, t2);
    SecretOfWire(HexText(t1), B64Text(s1));
    SecretOfWire(HexText(t2), B64Text(s2));
    B64Injective(s1, s2);
  }

  lemma SecretOfWire(tokenId: Text, secret: Text)
    ensures var raw, k := WireBearer(tokenId, secret), |BEARER_PREFIX| + |tokenId| + 1;
            k <= |raw| && raw[k..] == secret
  {
  }
}
