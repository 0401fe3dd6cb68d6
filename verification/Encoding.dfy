/** Bytes, machine integers, and the encodings the block header is built from.

    A Go string is a byte sequence, so strings, hex digests and hash inputs all have type Bytes.
    SHA-256 is a parameter: any function from byte sequences to 32 bytes. */
module Encoding {
  const TWO_64: int := 0x1_0000_0000_0000_0000

  type byte = x: int | 0 <= x < 256
  type uint8 = byte
  type uint32 = x: int | 0 <= x < 0x1_0000_0000
  type uint64 = x: int | 0 <= x < TWO_64
  type int64 = x: int | -0x8000_0000_0000_0000 <= x < 0x8000_0000_0000_0000
  type Bytes = seq<byte>
  type Digest = d: Bytes | |d| == 32 witness seq(32, _ => 0)
  type HashFn = Bytes -> Digest

  /** The conversion uint64(x) of a signed value. */
  function ToUint64(x: int): uint64 {
    x % TWO_64
  }

  /** Two's complement: a negative 64-bit value is shifted up by 2^64, any other one stays. */
  lemma ToUint64Means(x: int64)
    ensures ToUint64(x) == if x < 0 then x + TWO_64 else x
  {}

  /** Nonce++ on a uint64. */
  function NextNonce(n: uint64): uint64 {
    if n + 1 == TWO_64 then 0 else n + 1
  }

  lemma SuccessorModulo(n: nat)
    ensures NextNonce(n % TWO_64) == (n + 1) % TWO_64
  {}

  ghost predicate Distinct<T>(s: seq<T>) {
    forall i, j :: 0 <= i < j < |s| ==> s[i] != s[j]
  }

  // ---------------------------------------------------------------- hash collisions

  /** Two different members of `inputs` have the same hash. The set is always one that a caller has
      actually hashed: without that bound some collision exists for every fixed-length hash. */
  ghost predicate CollisionIn(sha: HashFn, inputs: set<Bytes>) {
    exists x, y :: x in inputs && y in inputs && x != y && sha(x) == sha(y)
  }

  lemma CollisionInLarger(sha: HashFn, small: set<Bytes>, large: set<Bytes>)
    requires small <= large && CollisionIn(sha, small)
    ensures CollisionIn(sha, large)
  {}

  // ---------------------------------------------------------------- big-endian integers

  function BigEndian(v: nat, width: nat): (r: Bytes)
    ensures |r| == width
  {
    if width == 0 then [] else BigEndian(v / 256, width - 1) + [v % 256]
  }

  function FromBigEndian(s: Bytes): nat {
    if s == [] then 0 else FromBigEndian(s[..|s| - 1]) * 256 + s[|s| - 1]
  }

  function Pow256(n: nat): nat {
    if n == 0 then 1 else 256 * Pow256(n - 1)
  }

  lemma {:induction false} BigEndianRoundTrip(v: nat, width: nat)
    requires v < Pow256(width)
    ensures FromBigEndian(BigEndian(v, width)) == v
  {
    if width > 0 {
      BigEndianRoundTrip(v / 256, width - 1);
      assert BigEndian(v, width)[..width - 1] == BigEndian(v / 256, width - 1);
    }
  }

  /** binary.BigEndian.PutUint64 into a fresh 8-byte buffer. */
  function PutUint64(v: uint64): (r: Bytes)
    ensures |r| == 8
  {
    BigEndian(v, 8)
  }

  lemma {:induction false} FromBigEndianStep(s: Bytes)
    requires s != []
    ensures FromBigEndian(s) == FromBigEndian(s[..|s| - 1]) * 256 + s[|s| - 1]
  {}

  lemma {:induction false} FourBytes(s: Bytes, rest: Bytes)
    requires |rest| == 4
    ensures
      var b: seq<int> := rest;
      FromBigEndian(s + rest)
      == FromBigEndian(s) * 0x1_0000_0000 + b[0] * 0x100_0000 + b[1] * 0x1_0000 + b[2] * 0x100 + b[3]
  {
    var n := |s|;
    var all := s + rest;
    assert all[..n + 3][..n + 2] == all[..n + 2] && all[..n + 2][..n + 1] == all[..n + 1] && all[..n + 1][..n] == s;
    FromBigEndianStep(all);
    FromBigEndianStep(all[..n + 3]);
    FromBigEndianStep(all[..n + 2]);
    FromBigEndianStep(all[..n + 1]);
  }

  /** The eight bytes of a value, the most significant one first. */
  lemma {:induction false} PutUint64Bytes(v: uint64)
    ensures
      var b: seq<int> := PutUint64(v);
      v == (b[0] * 0x100_0000 + b[1] * 0x1_0000 + b[2] * 0x100 + b[3]) * 0x1_0000_0000
           + b[4] * 0x100_0000 + b[5] * 0x1_0000 + b[6] * 0x100 + b[7]
  {
    var b, none: Bytes := PutUint64(v), [];
    assert Pow256(4) == 0x1_0000_0000;
    assert Pow256(8) == 0x1_0000_0000 * Pow256(4);
    BigEndianRoundTrip(v, 8);
    assert none + b[..4] == b[..4] && b[..4] + b[4..] == b;
    FourBytes(none, b[..4]);
    FourBytes(b[..4], b[4..]);
  }

  lemma PutUint64Injective(v: uint64, w: uint64)
    requires PutUint64(v) == PutUint64(w)
    ensures v == w
  {
    assert Pow256(4) == 0x1_0000_0000;
    assert Pow256(8) == 0x1_0000_0000 * Pow256(4);
    BigEndianRoundTrip(v, 8);
    BigEndianRoundTrip(w, 8);
  }

  // ---------------------------------------------------------------- hex

  function HexDigit(n: int): byte
    requires 0 <= n < 16
  {
    if n < 10 then 48 + n else 87 + n
  }

  /** hex.EncodeToString: lower case, two digits a byte. */
  function Hex(s: Bytes): (r: Bytes)
    ensures |r| == 2 * |s|
  {
    if s == [] then [] else [HexDigit(s[0] / 16), HexDigit(s[0] % 16)] + Hex(s[1..])
  }

  lemma {:induction false} HexInjective(s: Bytes, t: Bytes)
    requires Hex(s) == Hex(t)
    ensures s == t
  {
    if s == [] {
      assert |t| == 0;
    } else {
      assert |s| == |t|;
      assert Hex(s)[0] == HexDigit(s[0] / 16) && Hex(s)[1] == HexDigit(s[0] % 16);
      assert Hex(t)[0] == HexDigit(t[0] / 16) && Hex(t)[1] == HexDigit(t[0] % 16);
      assert Hex(s)[2..] == Hex(s[1..]) && Hex(t)[2..] == Hex(t[1..]);
      HexInjective(s[1..], t[1..]);
      assert s == [s[0]] + s[1..] && t == [t[0]] + t[1..];
    }
  }

  const HEX_ALPHABET: string := "0123456789abcdef"

  lemma Alphabet(n: int)
    requires 0 <= n < 16
    ensures HexDigit(n) == HEX_ALPHABET[n] as int
  {}

  /** The two characters for each byte, the high half first. */
  lemma {:induction false} HexDigits(s: Bytes, i: nat)
    requires i < |s|
    ensures Hex(s)[2 * i] == HEX_ALPHABET[s[i] / 16] as int && Hex(s)[2 * i + 1] == HEX_ALPHABET[s[i] % 16] as int
  {
    if i == 0 {
      Alphabet(s[0] / 16);
      Alphabet(s[0] % 16);
    } else {
      HexDigits(s[1..], i - 1);
      assert Hex(s)[2..] == Hex(s[1..]);
    }
  }
}
