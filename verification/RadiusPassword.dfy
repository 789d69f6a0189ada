/**
 User-Password hiding, section 5.2 of RFC 2865: each 16-byte block is masked with the MD5 of the
 secret and the previous masked block, the first with that of the secret and the request authenticator.
 */
module RadiusPassword {
  import opened Option
  import opened Bytes

  const BLOCK := 16
  const PASSWORD_CAP := 128

  // ---------------------------------------------------------------- the chain

  function Hide(plain: seq<byte>, prev: seq<byte>, secret: seq<byte>, md5: seq<byte> -> Digest): (c: seq<byte>)
    ensures |c| == |plain| - |plain| % 16
  {
    if |plain| < BLOCK then []
    else
      var block := XorSeq(plain[..BLOCK], md5(secret + prev));
      block + Hide(plain[BLOCK..], block, secret, md5)
  }

  function Reveal(enc: seq<byte>, prev: seq<byte>, secret: seq<byte>, md5: seq<byte> -> Digest): (p: seq<byte>)
    ensures |p| == |enc| - |enc| % 16
  {
    if |enc| < BLOCK then []
    else XorSeq(enc[..BLOCK], md5(secret + prev)) + Reveal(enc[BLOCK..], enc[..BLOCK], secret, md5)
  }

  lemma {:induction false} RevealHide(plain: seq<byte>, prev: seq<byte>, secret: seq<byte>, md5: seq<byte> -> Digest)
    requires |plain| % 16 == 0
    ensures Reveal(Hide(plain, prev, secret, md5), prev, secret, md5) == plain
  {
    if |plain| >= BLOCK {
      var mask := md5(secret + prev);
      var block := XorSeq(plain[..BLOCK], mask);
      var rest := Hide(plain[BLOCK..], block, secret, md5);
      assert (block + rest)[..BLOCK] == block && (block + rest)[BLOCK..] == rest;
      XorSeqInvolutive(plain[..BLOCK], mask);
      RevealHide(plain[BLOCK..], block, secret, md5);
      assert plain == plain[..BLOCK] + plain[BLOCK..];
    }
  }

  lemma ShiftedBlock(head: seq<byte>, tail: seq<byte>, k: nat)
    requires |head| == BLOCK && 16 * k + 16 <= |tail|
    ensures (head + tail)[16 * k + 16..16 * k + 32] == tail[16 * k..16 * k + 16]
  {
  }

  lemma HiddenFirst(plain: seq<byte>, prev: seq<byte>, secret: seq<byte>, md5: seq<byte> -> Digest)
    requires |plain| % 16 == 0 && |plain| >= BLOCK
    ensures var c := Hide(plain, prev, secret, md5);
            && |c| == |plain| && c[..16] == XorSeq(plain[..16], md5(secret + prev))
            && c == c[..16] + Hide(plain[16..], c[..16], secret, md5)
  {
  }

  /** Each hidden block is the plain one masked with MD5(secret, hidden block before it). */
  lemma {:induction false} HiddenBlock(plain: seq<byte>, prev: seq<byte>, secret: seq<byte>, md5: seq<byte> -> Digest, k: nat)
    requires |plain| % 16 == 0 && 16 * k + 16 <= |plain|
    ensures var c := Hide(plain, prev, secret, md5);
            |c| == |plain|
            && c[16 * k..16 * k + 16] ==
               XorSeq(plain[16 * k..16 * k + 16], md5(secret + if k == 0 then prev else c[16 * k - 16..16 * k]))
    decreases k
  {
    HiddenFirst(plain, prev, secret, md5);
    if k > 0 {
      var c := Hide(plain, prev, secret, md5);
      var tail := Hide(plain[16..], c[..16], secret, md5);
      HiddenBlock(plain[16..], c[..16], secret, md5, k - 1);
      ShiftedBlock(c[..16], tail, k - 1);
      ShiftedBlock(plain[..16], plain[16..], k - 1);
      assert plain == plain[..16] + plain[16..];
      if k > 1 {
        ShiftedBlock(c[..16], tail, k - 2);
      }
    }
  }

  lemma RevealedFirst(enc: seq<byte>, prev: seq<byte>, secret: seq<byte>, md5: seq<byte> -> Digest)
    requires |enc| % 16 == 0 && |enc| >= BLOCK
    ensures var p := Reveal(enc, prev, secret, md5);
            && |p| == |enc| && p[..16] == XorSeq(enc[..16], md5(secret + prev))
            && p == p[..16] + Reveal(enc[16..], enc[..16], secret, md5)
  {
  }

  lemma {:induction false} RevealedBlock(enc: seq<byte>, prev: seq<byte>, secret: seq<byte>, md5: seq<byte> -> Digest, k: nat)
    requires |enc| % 16 == 0 && 16 * k + 16 <= |enc|
    ensures var p := Reveal(enc, prev, secret, md5);
            |p| == |enc|
            && p[16 * k..16 * k + 16] ==
               XorSeq(enc[16 * k..16 * k + 16], md5(secret + if k == 0 then prev else enc[16 * k - 16..16 * k]))
    decreases k
  {
    RevealedFirst(enc, prev, secret, md5);
    if k > 0 {
      var p := Reveal(enc, prev, secret, md5);
      var tail := Reveal(enc[16..], enc[..16], secret, md5);
      RevealedBlock(enc[16..], enc[..16], secret, md5, k - 1);
      ShiftedBlock(p[..16], tail, k - 1);
      ShiftedBlock(enc[..16], enc[16..], k - 1);
      assert enc == enc[..16] + enc[16..];
      if k > 1 {
        ShiftedBlock(enc[..16], enc[16..], k - 2);
      }
    }
  }

  lemma MaskedPlace(c: seq<byte>, p: seq<byte>, at: nat, j: nat, mask: Digest)
    requires at + 16 <= |c| && |c| == |p| && j < 16 && c[at..at + 16] == XorSeq(p[at..at + 16], mask)
    ensures Xor(c[at + j], p[at + j]) == mask[j]
  {
    assert c[at + j] == c[at..at + 16][j] && p[at + j] == p[at..at + 16][j];
    XorCancels(p[at + j], mask[j]);
  }

  lemma HideStep(plain: seq<byte>, i: nat, prev: seq<byte>, secret: seq<byte>, md5: seq<byte> -> Digest, done: seq<byte>)
    requires i + BLOCK <= |plain|
    ensures var block := XorSeq(plain[i..i + BLOCK], md5(secret + prev));
            done + Hide(plain[i..], prev, secret, md5) == (done + block) + Hide(plain[i + BLOCK..], block, secret, md5)
  {
    SliceFrom(plain, i, BLOCK);
  }

  lemma RevealStep(enc: seq<byte>, i: nat, prev: seq<byte>, secret: seq<byte>, md5: seq<byte> -> Digest, done: seq<byte>)
    requires i + BLOCK <= |enc|
    ensures var block := XorSeq(enc[i..i + BLOCK], md5(secret + prev));
            done + Reveal(enc[i..], prev, secret, md5) ==
            (done + block) + Reveal(enc[i + BLOCK..], enc[i..i + BLOCK], secret, md5)
  {
    SliceFrom(enc, i, BLOCK);
  }

  /** One more block of the output written. */
  lemma HideWritten(whole: seq<byte>, out: seq<byte>, plain: seq<byte>, i: nat, prev: seq<byte>, secret: seq<byte>,
                    md5: seq<byte> -> Digest)
    requires i + BLOCK <= |plain| && i + BLOCK <= |out|
    requires whole == out[..i] + Hide(plain[i..], prev, secret, md5)
    requires out[i..i + BLOCK] == XorSeq(plain[i..i + BLOCK], md5(secret + prev))
    ensures whole == out[..i + BLOCK] + Hide(plain[i + BLOCK..], out[i..i + BLOCK], secret, md5)
  {
    HideStep(plain, i, prev, secret, md5, out[..i]);
    assert out[..i + BLOCK] == out[..i] + out[i..i + BLOCK];
  }

  lemma RevealWritten(whole: seq<byte>, out: seq<byte>, enc: seq<byte>, i: nat, prev: seq<byte>, secret: seq<byte>,
                      md5: seq<byte> -> Digest)
    requires i + BLOCK <= |enc| && i + BLOCK <= |out|
    requires whole == out[..i] + Reveal(enc[i..], prev, secret, md5)
    requires out[i..i + BLOCK] == XorSeq(enc[i..i + BLOCK], md5(secret + prev))
    ensures whole == out[..i + BLOCK] + Reveal(enc[i + BLOCK..], enc[i..i + BLOCK], secret, md5)
  {
    RevealStep(enc, i, prev, secret, md5, out[..i]);
    assert out[..i + BLOCK] == out[..i] + out[i..i + BLOCK];
  }

  // ---------------------------------------------------------------- padding

  function StripNuls(s: seq<byte>): (r: seq<byte>)
    ensures |r| <= |s| && r == s[..|r|]
    ensures r != [] ==> r[|r| - 1] != 0
    ensures forall i | |r| <= i < |s| :: s[i] == 0
  {
    if s == [] || s[|s| - 1] != 0 then s else StripNuls(s[..|s| - 1])
  }

  function PadLen(n: nat): (k: nat)
    ensures (n + k) % 16 == 0 && n + k >= BLOCK && k <= BLOCK
    ensures n <= PASSWORD_CAP ==> n + k <= PASSWORD_CAP
  {
    if n == 0 then BLOCK else if n % 16 == 0 then 0 else BLOCK - n % 16
  }

  /** Zeros up to the next multiple of the block size, at least one block, and no more than the cap. */
  function Padded(pw: seq<byte>): (p: seq<byte>)
    ensures |p| % 16 == 0 && BLOCK <= |p| <= PASSWORD_CAP
  {
    var full := pw + Zeros(PadLen(|pw|));
    if |full| > PASSWORD_CAP then full[..PASSWORD_CAP] else full
  }

  lemma {:induction false} StripTrailingZeros(s: seq<byte>, n: nat)
    ensures StripNuls(s + Zeros(n)) == StripNuls(s)
  {
    if n == 0 {
      assert s + Zeros(0) == s;
    } else {
      assert (s + Zeros(n))[..|s| + n - 1] == s + Zeros(n - 1);
      StripTrailingZeros(s, n - 1);
    }
  }

  // ---------------------------------------------------------------- the two operations

  function Encoded(plain: seq<byte>, reqAuth: seq<byte>, secret: seq<byte>, md5: seq<byte> -> Digest): seq<byte> {
    Hide(Padded(plain), reqAuth, secret, md5)
  }

  /** None for the two errors: not a positive multiple of 16, or longer than 128. */
  function Decoded(enc: seq<byte>, reqAuth: seq<byte>, secret: seq<byte>, md5: seq<byte> -> Digest): Option<seq<byte>> {
    if enc == [] || |enc| % 16 != 0 || |enc| > PASSWORD_CAP then None
    else Some(StripNuls(Reveal(enc, reqAuth, secret, md5)))
  }

  /** Decoding an encoded password gives back its first 128 bytes without trailing NULs, whatever the secret
      and authenticator; the encoding is a whole number of blocks, from one to eight. */
  lemma PasswordRoundTrip(plain: seq<byte>, reqAuth: seq<byte>, secret: seq<byte>, md5: seq<byte> -> Digest)
    ensures var enc := Encoded(plain, reqAuth, secret, md5);
            && |enc| % 16 == 0 && BLOCK <= |enc| <= PASSWORD_CAP
            && Decoded(enc, reqAuth, secret, md5) ==
               Some(StripNuls(if |plain| > PASSWORD_CAP then plain[..PASSWORD_CAP] else plain))
  {
    RevealHide(Padded(plain), reqAuth, secret, md5);
    PaddingStrips(plain);
  }

  /** What goes on the wire for a password: byte j of block k differs from the password's, or from a NUL behind its end,
      by byte j of MD5(secret, block before it on the wire), the request authenticator standing before the first. */
  lemma PasswordIsHidden(plain: seq<byte>, reqAuth: seq<byte>, secret: seq<byte>, md5: seq<byte> -> Digest, k: nat, j: nat)
    requires 16 * k + 16 <= |Encoded(plain, reqAuth, secret, md5)| && j < 16
    ensures var enc := Encoded(plain, reqAuth, secret, md5);
            var i := 16 * k + j;
            Xor(enc[i], if i < |plain| then plain[i] else 0) ==
            md5(secret + if k == 0 then reqAuth else enc[16 * k - 16..16 * k])[j]
  {
    HiddenPlace(Padded(plain), reqAuth, secret, md5, k, j);
    PaddedByte(plain, 16 * k + j);
  }

  lemma HiddenPlace(plain: seq<byte>, prev: seq<byte>, secret: seq<byte>, md5: seq<byte> -> Digest, k: nat, j: nat)
    requires |plain| % 16 == 0 && 16 * k + 16 <= |plain| && j < 16
    ensures var c := Hide(plain, prev, secret, md5);
            |c| == |plain|
            && Xor(c[16 * k + j], plain[16 * k + j]) == md5(secret + if k == 0 then prev else c[16 * k - 16..16 * k])[j]
  {
    var c := Hide(plain, prev, secret, md5);
    HiddenBlock(plain, prev, secret, md5, k);
    MaskedPlace(c, plain, 16 * k, j, md5(secret + if k == 0 then prev else c[16 * k - 16..16 * k]));
  }

  lemma RevealedPlace(enc: seq<byte>, prev: seq<byte>, secret: seq<byte>, md5: seq<byte> -> Digest, k: nat, j: nat)
    requires |enc| % 16 == 0 && 16 * k + 16 <= |enc| && j < 16
    ensures var p := Reveal(enc, prev, secret, md5);
            |p| == |enc|
            && Xor(p[16 * k + j], enc[16 * k + j]) == md5(secret + if k == 0 then prev else enc[16 * k - 16..16 * k])[j]
  {
    RevealedBlock(enc, prev, secret, md5, k);
    MaskedPlace(Reveal(enc, prev, secret, md5), enc, 16 * k, j, md5(secret + if k == 0 then prev else enc[16 * k - 16..16 * k]));
  }

  lemma PaddedByte(plain: seq<byte>, i: nat)
    requires i < |Padded(plain)|
    ensures Padded(plain)[i] == if i < |plain| then plain[i] else 0
  {
  }

  /** What is read from the wire: byte j of block k differs from the wire's by byte j of MD5(secret, block before it on
      the wire); the trailing NULs are cut off. */
  lemma PasswordIsRevealed(enc: seq<byte>, reqAuth: seq<byte>, secret: seq<byte>, md5: seq<byte> -> Digest, k: nat, j: nat)
    requires Decoded(enc, reqAuth, secret, md5).Some? && 16 * k + 16 <= |enc| && j < 16
    ensures var plain := Decoded(enc, reqAuth, secret, md5).value;
            var i := 16 * k + j;
            |plain| <= |enc|
            && Xor(if i < |plain| then plain[i] else 0, enc[i]) ==
               md5(secret + if k == 0 then reqAuth else enc[16 * k - 16..16 * k])[j]
  {
    RevealedPlace(enc, reqAuth, secret, md5, k, j);
    StrippedByte(Reveal(enc, reqAuth, secret, md5), 16 * k + j);
  }

  lemma StrippedByte(s: seq<byte>, i: nat)
    requires i < |s|
    ensures s[i] == if i < |StripNuls(s)| then StripNuls(s)[i] else 0
  {
    assert StripNuls(s) == s[..|StripNuls(s)|];
  }

  lemma PaddingStrips(plain: seq<byte>)
    ensures StripNuls(Padded(plain)) == StripNuls(if |plain| > PASSWORD_CAP then plain[..PASSWORD_CAP] else plain)
  {
    if |plain| <= PASSWORD_CAP {
      StripTrailingZeros(plain, PadLen(|plain|));
    } else {
      PrefixOfSum(plain, Zeros(PadLen(|plain|)), PASSWORD_CAP);
    }
  }

  lemma PrefixOfSum(a: seq<byte>, b: seq<byte>, n: nat)
    requires n <= |a|
    ensures (a + b)[..n] == a[..n]
  {
  }

  /** The inner loop: one block of `src` masked into `out` at `at`. */
  method MaskBlock(out: array<byte>, at: nat, src: seq<byte>, mask: Digest)
    requires at + BLOCK <= out.Length && |src| == BLOCK
    modifies out
    ensures out[at..at + BLOCK] == XorSeq(src, mask)
    ensures out[..at] == old(out[..at])
  {
    for j := 0 to BLOCK
      invariant out[..at] == old(out[..at])
      invariant forall k | 0 <= k < j :: out[at + k] == Xor(src[k], mask[k])
    {
      out[at + j] := Xor(src[j], mask[j]);
    }
  }

  method EncodeUserPassword(plain: seq<byte>, reqAuth: seq<byte>, secret: seq<byte>, crypto: Crypto) returns (enc: seq<byte>)
    ensures enc == Encoded(plain, reqAuth, secret, crypto.md5)
  {
    var pw := plain;
    var padLen := BLOCK - |pw| % 16;
    if padLen == BLOCK && |pw| != 0 {
      padLen := 0;
    }
    if |pw| == 0 {
      padLen := BLOCK;
    }
    pw := pw + Zeros(padLen);
    if |pw| > PASSWORD_CAP {
      pw := pw[..PASSWORD_CAP];
    }
    assert pw == Padded(plain);
    var out := new byte[|pw|](_ => 0);
    MaskBlocks(pw, reqAuth, secret, crypto, out);
    enc := out[..];
  }

  method MaskBlocks(pw: seq<byte>, reqAuth: seq<byte>, secret: seq<byte>, crypto: Crypto, out: array<byte>)
    requires |pw| % 16 == 0 && out.Length == |pw|
    modifies out
    ensures out[..] == Hide(pw, reqAuth, secret, crypto.md5)
  {
    var prev := reqAuth;
    var i := 0;
    while i < |pw|
      invariant 0 <= i <= |pw| && i % 16 == 0
      invariant Hide(pw, reqAuth, secret, crypto.md5) == out[..i] + Hide(pw[i..], prev, secret, crypto.md5)
    {
      var mask := crypto.md5(secret + prev);
      MaskBlock(out, i, pw[i..i + BLOCK], mask);
      HideWritten(Hide(pw, reqAuth, secret, crypto.md5), out[..], pw, i, prev, secret, crypto.md5);
      prev := out[i..i + BLOCK];
      i := i + BLOCK;
    }
    assert pw[i..] == [] && out[..i] == out[..];
  }

  method DecodeUserPassword(enc: seq<byte>, reqAuth: seq<byte>, secret: seq<byte>, crypto: Crypto)
    returns (plain: Option<seq<byte>>)
    ensures plain == Decoded(enc, reqAuth, secret, crypto.md5)
  {
    if |enc| == 0 || |enc| % 16 != 0 {
      return None;
    }
    if |enc| > PASSWORD_CAP {
      return None;
    }
    var out := new byte[|enc|](_ => 0);
    UnmaskBlocks(enc, reqAuth, secret, crypto, out);
    var n := StrippedLength(out);
    plain := Some(out[..n]);
  }

  method StrippedLength(out: array<byte>) returns (n: nat)
    ensures n <= out.Length && out[..n] == StripNuls(out[..])
  {
    n := out.Length;
    assert out[..n] == out[..];
    while n > 0 && out[n - 1] == 0
      invariant 0 <= n <= out.Length
      invariant StripNuls(out[..]) == StripNuls(out[..n])
    {
      assert out[..n][..n - 1] == out[..n - 1];
      n := n - 1;
    }
  }

  method UnmaskBlocks(enc: seq<byte>, reqAuth: seq<byte>, secret: seq<byte>, crypto: Crypto, out: array<byte>)
    requires |enc| % 16 == 0 && out.Length == |enc|
    modifies out
    ensures out[..] == Reveal(enc, reqAuth, secret, crypto.md5)
  {
    var prev := reqAuth;
    var i := 0;
    while i < |enc|
      invariant 0 <= i <= |enc| && i % 16 == 0
      invariant Reveal(enc, reqAuth, secret, crypto.md5) == out[..i] + Reveal(enc[i..], prev, secret, crypto.md5)
    {
      var mask := crypto.md5(secret + prev);
      MaskBlock(out, i, enc[i..i + BLOCK], mask);
      RevealWritten(Reveal(enc, reqAuth, secret, crypto.md5), out[..], enc, i, prev, secret, crypto.md5);
      prev := enc[i..i + BLOCK];
      i := i + BLOCK;
    }
    assert enc[i..] == [] && out[..i] == out[..];
  }
}
