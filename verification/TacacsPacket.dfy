/**
 TACACS+ packets (RFC 8907): the 12-byte header of section 4.1 and the body masked with the MD5
 keystream of section 4.5.
 */
module TacacsPacket {
  import opened Option
  import opened Bytes

  const HEADER_LEN := 12
  const MAX_BODY_LEN := 65535

  datatype Header = Header(version: byte, kind: byte, seqNo: byte, flags: byte, sessId: nat, length: nat)

  /** The two 32-bit fields. */
  predicate InRange(h: Header) {
    h.sessId <= MAX32 && h.length <= MAX32
  }

  function HeaderBytes(h: Header): (b: seq<byte>)
    ensures |b| == HEADER_LEN
  {
    [h.version, h.kind, h.seqNo, h.flags] + Put32(h.sessId) + Put32(h.length)
  }

  function HeaderOf(b: seq<byte>): (h: Header)
    requires |b| == HEADER_LEN
    ensures InRange(h)
  {
    Header(b[0], b[1], b[2], b[3], Get32(b[4..8]), Get32(b[8..12]))
  }

  lemma HeaderRoundTrip(h: Header)
    requires InRange(h)
    ensures HeaderOf(HeaderBytes(h)) == h
  {
    var b := HeaderBytes(h);
    assert b[4..8] == Put32(h.sessId) && b[8..12] == Put32(h.length);
    Get32Put32(h.sessId);
    Get32Put32(h.length);
  }

  // ---------------------------------------------------------------- the keystream

  /** session_id, key, version, seq_no. */
  function Seed(h: Header, secret: seq<byte>): seq<byte> {
    Put32(h.sessId) + secret + [h.version, h.seqNo]
  }

  /** MD5_1 = MD5{seed}, MD5_n = MD5{seed, MD5_n-1}; blocks count from zero here. */
  function Block(seed: seq<byte>, md5: seq<byte> -> Digest, i: nat): Digest {
    if i == 0 then md5(seed) else md5(seed + Block(seed, md5, i - 1))
  }

  function Blocks(seed: seq<byte>, md5: seq<byte> -> Digest, count: nat): (s: seq<byte>)
    ensures |s| == 16 * count
  {
    if count == 0 then [] else Blocks(seed, md5, count - 1) + Block(seed, md5, count - 1)
  }

  /** The first n bytes of the concatenated blocks. */
  function Keystream(h: Header, secret: seq<byte>, md5: seq<byte> -> Digest, n: nat): (s: seq<byte>)
    ensures |s| == n
  {
    Blocks(Seed(h, secret), md5, (n + 15) / 16)[..n]
  }

  lemma {:induction false} BlocksPrefix(seed: seq<byte>, md5: seq<byte> -> Digest, a: nat, b: nat)
    requires a <= b
    ensures Blocks(seed, md5, a) <= Blocks(seed, md5, b)
    decreases b
  {
    if a < b {
      BlocksPrefix(seed, md5, a, b - 1);
    }
  }

  lemma {:induction false} BlockPlace(seed: seq<byte>, md5: seq<byte> -> Digest, count: nat, k: nat)
    requires k < count
    ensures Blocks(seed, md5, count)[16 * k..16 * k + 16] == Block(seed, md5, k)
    decreases count
  {
    var before := Blocks(seed, md5, count - 1);
    if k < count - 1 {
      BlockPlace(seed, md5, count - 1, k);
      assert Blocks(seed, md5, count)[16 * k..16 * k + 16] == before[16 * k..16 * k + 16];
    }
  }

  /** Each 16-byte block of the keystream is the MD5 of the session id, most significant byte first, the key, the version
      and the sequence number, and, but for the first, the block before it. */
  lemma KeystreamIsChained(h: Header, secret: seq<byte>, md5: seq<byte> -> Digest, n: nat, k: nat)
    requires 16 * k + 16 <= n && h.sessId <= MAX32
    ensures var stream := Keystream(h, secret, md5, n);
            stream[16 * k..16 * k + 16] ==
            md5([h.sessId / 16777216, h.sessId / 65536 % 256, h.sessId / 256 % 256, h.sessId % 256]
                + secret + [h.version, h.seqNo] + if k == 0 then [] else stream[16 * k - 16..16 * k])
  {
    var seed := Seed(h, secret);
    var count := (n + 15) / 16;
    var all := Blocks(seed, md5, count);
    var stream := Keystream(h, secret, md5, n);
    BlockPlace(seed, md5, count, k);
    assert stream[16 * k..16 * k + 16] == all[16 * k..16 * k + 16];
    SeedBytes(h, secret);
    if k > 0 {
      BlockPlace(seed, md5, count, k - 1);
      assert stream[16 * k - 16..16 * k] == all[16 * (k - 1)..16 * (k - 1) + 16];
    } else {
      assert seed + [] == seed;
    }
  }

  lemma SeedBytes(h: Header, secret: seq<byte>)
    requires h.sessId <= MAX32
    ensures Seed(h, secret) ==
            [h.sessId / 16777216, h.sessId / 65536 % 256, h.sessId / 256 % 256, h.sessId % 256] + secret + [h.version, h.seqNo]
  {
    Put32Bytes(h.sessId);
  }

  /** The twelve bytes of section 4.1. */
  lemma HeaderLayout(h: Header)
    requires InRange(h)
    ensures HeaderBytes(h) ==
            [h.version, h.kind, h.seqNo, h.flags,
             h.sessId / 16777216, h.sessId / 65536 % 256, h.sessId / 256 % 256, h.sessId % 256,
             h.length / 16777216, h.length / 65536 % 256, h.length / 256 % 256, h.length % 256]
  {
    Put32Bytes(h.sessId);
    Put32Bytes(h.length);
  }

  /** Asking for more keystream never changes the part already given out. */
  lemma KeystreamPrefix(h: Header, secret: seq<byte>, md5: seq<byte> -> Digest, n: nat, m: nat)
    requires n <= m
    ensures Keystream(h, secret, md5, n) <= Keystream(h, secret, md5, m)
  {
    BlocksPrefix(Seed(h, secret), md5, (n + 15) / 16, (m + 15) / 16);
  }

  method MakeStream(h: Header, secret: seq<byte>, n: nat, crypto: Crypto) returns (stream: seq<byte>)
    ensures stream == Keystream(h, secret, crypto.md5, n)
  {
    ghost var seed := Seed(h, secret);
    ghost var count := 0;
    var out: seq<byte> := [];
    var prev: Option<Digest> := None;
    while |out| < n
      invariant out == Blocks(seed, crypto.md5, count)
      invariant count <= (n + 15) / 16
      invariant prev == if count == 0 then None else Some(Block(seed, crypto.md5, count - 1))
    {
      var input := Put32(h.sessId) + secret + [h.version, h.seqNo];
      if prev.Some? {
        input := input + prev.value;
      }
      var sum := crypto.md5(input);
      prev := Some(sum);
      out := out + sum;
      count := count + 1;
    }
    BlocksPrefix(seed, crypto.md5, count, (n + 15) / 16);
    stream := out[..n];
  }

  // ---------------------------------------------------------------- obfuscation

  predicate InTheClear(h: Header, secret: seq<byte>) {
    h.flags % 2 == 1 || secret == []
  }

  /** Section 4.5: the body masked with the keystream, unless the unencrypted flag is set or there is no key. */
  function Obfuscated(body: seq<byte>, h: Header, secret: seq<byte>, md5: seq<byte> -> Digest): (r: seq<byte>)
    ensures |r| == |body|
  {
    if InTheClear(h, secret) then body else XorSeq(body, Keystream(h, secret, md5, |body|))
  }

  lemma ObfuscateTwice(body: seq<byte>, h: Header, secret: seq<byte>, md5: seq<byte> -> Digest)
    ensures Obfuscated(Obfuscated(body, h, secret, md5), h, secret, md5) == body
  {
    if !InTheClear(h, secret) {
      XorSeqInvolutive(body, Keystream(h, secret, md5, |body|));
    }
  }

  /** Byte by byte: a masked body and the clear one differ by the keystream, unless the unencrypted flag is set or there
      is no key; then they are the same. */
  lemma BodyIsMasked(body: seq<byte>, h: Header, secret: seq<byte>, md5: seq<byte> -> Digest, i: nat)
    requires i < |body|
    ensures var masked := Obfuscated(body, h, secret, md5);
            if h.flags % 2 == 1 || secret == [] then masked == body
            else Xor(masked[i], body[i]) == Keystream(h, secret, md5, |body|)[i]
  {
    XorCancels(body[i], Keystream(h, secret, md5, |body|)[i]);
  }

  method Obfuscate(body: array<byte>, h: Header, secret: seq<byte>, crypto: Crypto)
    modifies body
    ensures body[..] == Obfuscated(old(body[..]), h, secret, crypto.md5)
  {
    if h.flags % 2 != 0 || |secret| == 0 {
      return;
    }
    var stream := MakeStream(h, secret, body.Length, crypto);
    for i := 0 to body.Length
      invariant forall k | 0 <= k < body.Length :: body[k] == if k < i then Xor(old(body[k]), stream[k]) else old(body[k])
    {
      body[i] := Xor(body[i], stream[i]);
    }
  }

  // ---------------------------------------------------------------- reading and writing

  /** A byte stream being read: what is still to come. */
  class Reader {
    var data: seq<byte>

    constructor (data: seq<byte>)
      ensures this.data == data
    {
      this.data := data;
    }

    /** io.ReadFull: exactly n bytes, or an error that has used up what there was. */
    method ReadFull(n: nat) returns (bytes: Option<seq<byte>>)
      modifies this
      ensures old(|data|) >= n ==> bytes == Some(old(data[..n])) && data == old(data[n..])
      ensures old(|data|) < n ==> bytes == None && data == []
    {
      if |data| < n {
        data := [];
        return None;
      }
      bytes := Some(data[..n]);
      data := data[n..];
    }
  }

  class Writer {
    var data: seq<byte>

    constructor ()
      ensures data == []
    {
      data := [];
    }

    method Write(p: seq<byte>)
      modifies this
      ensures data == old(data) + p
    {
      data := data + p;
    }
  }

  datatype HeaderResult = Ok(header: Header) | Oversized(header: Header) | Short

  function HeaderRead(data: seq<byte>): HeaderResult {
    if |data| < HEADER_LEN then Short
    else
      var h := HeaderOf(data[..HEADER_LEN]);
      if h.length > MAX_BODY_LEN then Oversized(h) else Ok(h)
  }

  function BodyRead(data: seq<byte>, h: Header, secret: seq<byte>, md5: seq<byte> -> Digest): Option<seq<byte>> {
    if |data| < h.length then None else Some(Obfuscated(data[..h.length], h, secret, md5))
  }

  /** What WritePacket puts on the wire: the length field always counts the body. */
  function PacketBytes(h: Header, body: seq<byte>, secret: seq<byte>, md5: seq<byte> -> Digest): seq<byte> {
    var h' := h.(length := |body| % 0x1_0000_0000);
    HeaderBytes(h') + Obfuscated(body, h', secret, md5)
  }

  method ReadHeader(r: Reader) returns (result: HeaderResult)
    modifies r
    ensures result == HeaderRead(old(r.data))
    ensures !result.Short? ==> r.data == old(r.data[HEADER_LEN..])
  {
    var buf := r.ReadFull(HEADER_LEN);
    if buf.None? {
      return Short;
    }
    var h := HeaderOf(buf.value);
    result := if h.length > MAX_BODY_LEN then Oversized(h) else Ok(h);
  }

  method ReadBody(r: Reader, h: Header, secret: seq<byte>, crypto: Crypto) returns (body: Option<seq<byte>>)
    modifies r
    ensures body == BodyRead(old(r.data), h, secret, crypto.md5)
    ensures body.Some? ==> r.data == old(r.data[h.length..])
  {
    if h.length == 0 {
      return Some([]);
    }
    var bytes := r.ReadFull(h.length);
    if bytes.None? {
      return None;
    }
    var buf := new byte[h.length](i requires 0 <= i < h.length => bytes.value[i]);
    assert buf[..] == bytes.value;
    Obfuscate(buf, h, secret, crypto);
    body := Some(buf[..]);
  }

  method WritePacket(w: Writer, h: Header, body: seq<byte>, secret: seq<byte>, crypto: Crypto)
    modifies w
    ensures w.data == old(w.data) + PacketBytes(h, body, secret, crypto.md5)
  {
    var h' := h.(length := |body| % 0x1_0000_0000);
    w.Write(HeaderBytes(h'));
    var cp := new byte[|body|](i requires 0 <= i < |body| => body[i]);
    assert cp[..] == body;
    Obfuscate(cp, h', secret, crypto);
    w.Write(cp[..]);
  }

  /** Only the first twelve bytes matter to the header. */
  lemma HeaderIsRead(h: Header, rest: seq<byte>)
    requires InRange(h)
    ensures HeaderRead(HeaderBytes(h) + rest) == if h.length > MAX_BODY_LEN then Oversized(h) else Ok(h)
  {
    HeaderRoundTrip(h);
    assert (HeaderBytes(h) + rest)[..HEADER_LEN] == HeaderBytes(h);
  }

  lemma LengthIsKept(h: Header, body: seq<byte>, secret: seq<byte>, md5: seq<byte> -> Digest)
    requires |body| <= MAX32
    ensures PacketBytes(h, body, secret, md5)
            == HeaderBytes(h.(length := |body|)) + Obfuscated(body, h.(length := |body|), secret, md5)
  {
    SmallModulo(|body|);
  }

  lemma SmallModulo(n: nat)
    requires n <= MAX32
    ensures n % 0x1_0000_0000 == n
  {
  }

  lemma BodyIsRead(body: seq<byte>, rest: seq<byte>, h: Header, secret: seq<byte>, md5: seq<byte> -> Digest)
    requires h.length == |body|
    ensures BodyRead(Obfuscated(body, h, secret, md5) + rest, h, secret, md5) == Some(body)
  {
    var masked := Obfuscated(body, h, secret, md5);
    assert (masked + rest)[..|body|] == masked;
    ObfuscateTwice(body, h, secret, md5);
  }

  /** Reading what was written gives back the header, its length field set to the body's size, and the
      body; whatever follows is left for the next packet. */
  lemma PacketRoundTrip(h: Header, body: seq<byte>, secret: seq<byte>, md5: seq<byte> -> Digest, extra: seq<byte>)
    requires h.sessId <= MAX32 && |body| <= MAX_BODY_LEN
    ensures var data := PacketBytes(h, body, secret, md5) + extra;
            var h' := h.(length := |body|);
            && HeaderRead(data) == Ok(h')
            && BodyRead(data[HEADER_LEN..], h', secret, md5) == Some(body)
            && data[HEADER_LEN..][|body|..] == extra
  {
    var h' := h.(length := |body|);
    var masked := Obfuscated(body, h', secret, md5);
    LengthIsKept(h, body, secret, md5);
    Cut(HeaderBytes(h'), masked, extra);
    assert HeaderBytes(h') + masked + extra == HeaderBytes(h') + (masked + extra);
    HeaderIsRead(h', masked + extra);
    BodyIsRead(body, extra, h', secret, md5);
  }

  lemma Cut(a: seq<byte>, b: seq<byte>, c: seq<byte>)
    ensures (a + b + c)[..|a|] == a && (a + b + c)[|a|..] == b + c
    ensures (b + c)[..|b|] == b && (b + c)[|b|..] == c
  {
  }

  /** A body over the cap is written, but its packet is not read back. */
  lemma OversizedIsRefused(h: Header, body: seq<byte>, secret: seq<byte>, md5: seq<byte> -> Digest)
    requires h.sessId <= MAX32 && MAX_BODY_LEN < |body| <= MAX32
    ensures HeaderRead(PacketBytes(h, body, secret, md5)) == Oversized(h.(length := |body|))
  {
    var h' := h.(length := |body|);
    LengthIsKept(h, body, secret, md5);
    HeaderIsRead(h', Obfuscated(body, h', secret, md5));
  }
}
