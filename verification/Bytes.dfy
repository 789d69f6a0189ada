/** Bytes, 16-byte digests, exclusive or, big-endian integers and the in-place copy the codecs share. */
module Bytes {

  type byte = b: int | 0 <= b < 256

  const DIGEST_LEN := 16

  type Digest = s: seq<byte> | |s| == DIGEST_LEN witness Zeros(DIGEST_LEN)

  /** MD5 and HMAC-MD5 stand for any two functions into 16 bytes. */
  datatype Crypto = Crypto(md5: seq<byte> -> Digest, hmac: (seq<byte>, seq<byte>) -> Digest)

  function Zeros(n: nat): (z: seq<byte>)
    ensures |z| == n
    ensures forall i | 0 <= i < n :: z[i] == 0
  {
    seq(n, _ => 0)
  }

  // ---------------------------------------------------------------- exclusive or

  function Pow2(n: nat): nat {
    if n == 0 then 1 else 2 * Pow2(n - 1)
  }

  /** Exclusive or of the lowest `bits` binary digits. */
  function XorBits(a: nat, b: nat, bits: nat): (r: nat)
    ensures r < Pow2(bits)
  {
    if bits == 0 then 0 else (if a % 2 != b % 2 then 1 else 0) + 2 * XorBits(a / 2, b / 2, bits - 1)
  }

  function Xor(a: byte, b: byte): byte {
    assert Pow2(8) == 256;
    XorBits(a, b, 8)
  }

  lemma {:induction false} XorBitsInvolutive(a: nat, b: nat, bits: nat)
    requires a < Pow2(bits)
    ensures XorBits(XorBits(a, b, bits), b, bits) == a
  {
    if bits > 0 {
      XorBitsInvolutive(a / 2, b / 2, bits - 1);
      var r := XorBits(a, b, bits);
      assert r / 2 == XorBits(a / 2, b / 2, bits - 1) && r % 2 == (if a % 2 != b % 2 then 1 else 0);
    }
  }

  /** Masking twice with the same byte restores the byte. */
  lemma XorInvolutive(a: byte, b: byte)
    ensures Xor(Xor(a, b), b) == a
  {
    assert Pow2(8) == 256;
    XorBitsInvolutive(a, b, 8);
  }

  function Halved(x: nat, times: nat): nat {
    if times == 0 then x else Halved(x / 2, times - 1)
  }

  lemma {:induction false} XorBitsDigit(a: nat, b: nat, bits: nat, i: nat)
    requires i < bits
    ensures Halved(XorBits(a, b, bits), i) % 2 == 1 <==> Halved(a, i) % 2 != Halved(b, i) % 2
    decreases i
  {
    var r := XorBits(a, b, bits);
    assert r / 2 == XorBits(a / 2, b / 2, bits - 1) && (r % 2 == 1 <==> a % 2 != b % 2);
    if i > 0 {
      XorBitsDigit(a / 2, b / 2, bits - 1, i - 1);
    }
  }

  lemma FourHalves(x: nat)
    ensures Halved(x, 0) == x && Halved(x, 1) == x / 2 && Halved(x, 2) == x / 4 && Halved(x, 3) == x / 8
    ensures forall k | 4 <= k < 8 :: Halved(x, k) == Halved(x / 16, k - 4)
  {
    assert x / 2 / 2 == x / 4 && x / 4 / 2 == x / 8 && x / 8 / 2 == x / 16;
    assert Halved(x / 2 / 2 / 2 / 2, 0) == x / 16;
    forall k | 4 <= k < 8 ensures Halved(x, k) == Halved(x / 16, k - 4) {
      assert Halved(x, k) == Halved(x / 2, k - 1) == Halved(x / 2 / 2, k - 2) == Halved(x / 2 / 2 / 2, k - 3);
    }
  }

  lemma EightHalves(x: nat)
    ensures Halved(x, 0) == x && Halved(x, 1) == x / 2 && Halved(x, 2) == x / 4 && Halved(x, 3) == x / 8
    ensures Halved(x, 4) == x / 16 && Halved(x, 5) == x / 32 && Halved(x, 6) == x / 64 && Halved(x, 7) == x / 128
  {
    FourHalves(x);
    FourHalves(x / 16);
    assert x / 16 / 2 == x / 32 && x / 16 / 4 == x / 64 && x / 16 / 8 == x / 128;
  }

  lemma XorDigit(a: byte, b: byte, i: nat)
    requires i < 8
    ensures Halved(Xor(a, b), i) % 2 == 1 <==> Halved(a, i) % 2 != Halved(b, i) % 2
  {
    XorBitsDigit(a, b, 8, i);
  }

  lemma HalvedIs(x: nat, i: nat)
    requires i < 8
    ensures Halved(x, i) == x / [1, 2, 4, 8, 16, 32, 64, 128][i]
  {
    EightHalves(x);
  }

  /** Each of the eight binary digits of the exclusive or is one exactly where those of the two bytes differ. */
  lemma XorDigits(a: byte, b: byte, i: nat)
    requires i < 8
    ensures var w: int := [1, 2, 4, 8, 16, 32, 64, 128][i];
            var x: int, y: int, z: int := a, b, Xor(a, b);
            z / w % 2 == 1 <==> x / w % 2 != y / w % 2
  {
    HalvedIs(a, i);
    HalvedIs(b, i);
    HalvedIs(Xor(a, b), i);
    XorDigit(a, b, i);
  }

  lemma {:induction false} XorBitsCommute(a: nat, b: nat, bits: nat)
    ensures XorBits(a, b, bits) == XorBits(b, a, bits)
  {
    if bits > 0 {
      XorBitsCommute(a / 2, b / 2, bits - 1);
    }
  }

  /** Unmasking with the text instead of the mask gives the mask. */
  lemma XorCancels(a: byte, mask: byte)
    ensures Xor(Xor(a, mask), a) == mask
  {
    XorBitsCommute(a, mask, 8);
    XorInvolutive(mask, a);
  }

  function XorSeq(a: seq<byte>, mask: seq<byte>): (r: seq<byte>)
    requires |a| <= |mask|
    ensures |r| == |a|
    ensures forall i | 0 <= i < |a| :: r[i] == Xor(a[i], mask[i])
  {
    seq(|a|, i requires 0 <= i < |a| => Xor(a[i], mask[i]))
  }

  lemma XorSeqInvolutive(a: seq<byte>, mask: seq<byte>)
    requires |a| <= |mask|
    ensures XorSeq(XorSeq(a, mask), mask) == a
  {
    forall i | 0 <= i < |a| ensures XorSeq(XorSeq(a, mask), mask)[i] == a[i] {
      XorInvolutive(a[i], mask[i]);
    }
  }

  // ---------------------------------------------------------------- big-endian integers

  const MAX16 := 65535
  const MAX32 := 4294967295

  /** The low 16 bits, most significant byte first. */
  function Put16(n: nat): (r: seq<byte>)
    ensures |r| == 2
  {
    [n / 256 % 256, n % 256]
  }

  function Get16(s: seq<byte>): (n: nat)
    requires |s| == 2
    ensures n <= MAX16
  {
    var hi: int, lo: int := s[0], s[1];
    hi * 256 + lo
  }

  lemma Put16Get16(s: seq<byte>)
    requires |s| == 2
    ensures Put16(Get16(s)) == s
  {
    var hi: int, lo: int := s[0], s[1];
    assert (hi * 256 + lo) / 256 == hi && (hi * 256 + lo) % 256 == lo;
  }

  lemma Get16Put16(n: nat)
    requires n <= MAX16
    ensures Get16(Put16(n)) == n
  {
  }

  function Put32(n: nat): (r: seq<byte>)
    ensures |r| == 4
  {
    Put16(n / 65536) + Put16(n)
  }

  function Get32(s: seq<byte>): (n: nat)
    requires |s| == 4
    ensures n <= MAX32
  {
    Get16(s[..2]) * 65536 + Get16(s[2..])
  }

  lemma LowHalf(n: nat)
    ensures Put16(n) == Put16(n % 65536)
  {
    assert n == 65536 * (n / 65536) + n % 65536;
    LowBytes(n / 65536, n % 65536);
  }

  lemma LowBytes(hi: nat, lo: nat)
    ensures (65536 * hi + lo) % 256 == lo % 256
    ensures (65536 * hi + lo) / 256 % 256 == lo / 256 % 256
  {
    assert (65536 * hi + lo) / 256 == 256 * hi + lo / 256;
  }

  lemma Get32Put32(n: nat)
    requires n <= MAX32
    ensures Get32(Put32(n)) == n
  {
    assert Put32(n)[..2] == Put16(n / 65536) && Put32(n)[2..] == Put16(n);
    LowHalf(n);
    Get16Put16(n / 65536);
    Get16Put16(n % 65536);
  }

  /** Most significant byte first. */
  lemma Put16Bytes(n: nat)
    requires n <= MAX16
    ensures Put16(n) == [n / 256, n % 256]
  {
  }

  lemma Put32Bytes(n: nat)
    requires n <= MAX32
    ensures Put32(n) == [n / 16777216, n / 65536 % 256, n / 256 % 256, n % 256]
  {
    Put16Bytes(n / 65536);
    NestedQuotient(n);
  }

  lemma NestedQuotient(n: nat)
    ensures n / 65536 / 256 == n / 16777216
  {
  }

  lemma SliceFrom(s: seq<byte>, i: nat, n: nat)
    requires i + n <= |s|
    ensures s[i..][..n] == s[i..i + n] && s[i..][n..] == s[i + n..]
  {
  }

  // ---------------------------------------------------------------- in-place copy

  /** `s` with the bytes from `at` on replaced by `v`. */
  function Splice(s: seq<byte>, at: nat, v: seq<byte>): (r: seq<byte>)
    requires at + |v| <= |s|
    ensures |r| == |s|
  {
    s[..at] + v + s[at + |v|..]
  }

  method Copy(a: array<byte>, at: nat, v: seq<byte>)
    requires at + |v| <= a.Length
    modifies a
    ensures a[..] == Splice(old(a[..]), at, v)
  {
    for i := 0 to |v|
      invariant forall k | 0 <= k < a.Length :: a[k] == if at <= k < at + i then v[k - at] else old(a[k])
    {
      a[at + i] := v[i];
    }
  }
}
