/** Encode and Decode undo each other on requests, and a reply's two authenticators agree. */
module RadiusTheorems {
  import opened Option
  import opened Bytes
  import opened RadiusPacket

  // ---------------------------------------------------------------- attributes: write, then read; read, then write

  lemma TlvAt(buf: seq<byte>, head: seq<byte>, a: Attribute, rest: seq<byte>)
    requires |a.value| <= MAX_VALUE_LEN && buf == head + Tlv(a) + rest
    ensures buf[|head|] == a.kind && buf[|head| + 1] == 2 + |a.value|
    ensures buf[|head| + 2..|head| + 2 + |a.value|] == a.value
  {
  }

  lemma Regroup(h: seq<byte>, t: seq<byte>, b: seq<byte>, r: seq<byte>)
    ensures h + (t + b) + r == h + t + (b + r)
    ensures h + (t + b) + r == (h + t) + b + r
    ensures h + (t + b) == h + t + b
  {
  }

  /** One attribute, then the rest. */
  lemma ParseCons(buf: seq<byte>, head: seq<byte>, a: Attribute, rest: seq<byte>, length: nat)
    requires |a.value| <= MAX_VALUE_LEN && buf == head + Tlv(a) + rest
    requires |head + Tlv(a)| <= length <= |buf|
    ensures var tail := ParseAttrs(buf, |head + Tlv(a)|, length);
            ParseAttrs(buf, |head|, length) == if tail.None? then None else Some([a] + tail.value)
  {
    TlvAt(buf, head, a, rest);
  }

  lemma ParseEnd(buf: seq<byte>, length: nat)
    requires length <= |buf|
    ensures ParseAttrs(buf, length, length) == Some([])
  {
  }

  lemma {:induction false} ParseWritten(buf: seq<byte>, head: seq<byte>, attrs: seq<Attribute>, rest: seq<byte>, length: nat)
    requires Encodable(attrs) && buf == head + Body(attrs) + rest && length == |head| + |Body(attrs)|
    ensures ParseAttrs(buf, |head|, length) == Some(attrs)
    decreases |attrs|
  {
    if attrs == [] {
      ParseEnd(buf, length);
    } else {
      var a, tail := attrs[0], attrs[1..];
      assert Encodable(tail);
      var head' := head + Tlv(a);
      assert buf == head + Tlv(a) + (Body(tail) + rest) && buf == head' + Body(tail) + rest by {
        Regroup(head, Tlv(a), Body(tail), rest);
      }
      ParseWritten(buf, head', tail, rest, length);
      ParseCons(buf, head, a, Body(tail) + rest, length);
      assert attrs == [a] + tail;
    }
  }

  /** A successful parse consumed every byte up to the length: writing its result gives those bytes back. */
  lemma {:induction false} ParsedRewrites(buf: seq<byte>, off: nat, length: nat)
    requires off <= length <= |buf|
    requires ParseAttrs(buf, off, length).Some?
    ensures var attrs := ParseAttrs(buf, off, length).value; Encodable(attrs) && Body(attrs) == buf[off..length]
    decreases length - off
  {
    if off < length {
      var l := buf[off + 1];
      ParsedRewrites(buf, off + l, length);
      var rest := ParseAttrs(buf, off + l, length).value;
      var a := Attribute(buf[off], buf[off + 2..off + l]);
      assert ([a] + rest)[1..] == rest;
      assert Tlv(a) == buf[off..off + l];
    }
  }

  // ---------------------------------------------------------------- requests

  /** Decode after Encode: every Access-Request without a Message-Authenticator value comes back, also when
      the datagram carries bytes after it, provided Encode was not given some other 16-byte authenticator. */
  lemma RequestRoundTrip(p: Packet, secret: seq<byte>, reqAuth: seq<byte>, crypto: Crypto, extra: seq<byte>)
    requires p.code == ACCESS_REQUEST && FirstValue(p.attrs, MESSAGE_AUTHENTICATOR) == []
    requires Encodable(p.attrs) && HEADER_LEN + |Body(p.attrs)| <= MAX_PACKET_LEN
    requires |reqAuth| == DIGEST_LEN ==> reqAuth == p.authenticator
    ensures Encoded(p, secret, reqAuth, crypto).Some?
    ensures Decoded(Encoded(p, secret, reqAuth, crypto).value + extra, secret, crypto) == Some(p)
  {
    var w := Wire(p.code, p.identifier, p.authenticator, p.attrs);
    var buf := w + extra;
    ReadHeader(p.code, p.identifier, p.authenticator, p.attrs, extra);
  }

  /** The header fields of a written packet, and its attributes, read back. */
  lemma ReadHeader(code: byte, id: byte, auth: Digest, attrs: seq<Attribute>, extra: seq<byte>)
    requires Encodable(attrs) && HEADER_LEN + |Body(attrs)| <= MAX_PACKET_LEN
    ensures var buf := Wire(code, id, auth, attrs) + extra;
            && |buf| >= HEADER_LEN && buf[0] == code && buf[1] == id && buf[4..HEADER_LEN] == auth
            && LengthField(buf) == HEADER_LEN + |Body(attrs)|
            && ParseAttrs(buf, HEADER_LEN, LengthField(buf)) == Some(attrs)
  {
    var length := HEADER_LEN + |Body(attrs)|;
    var head := [code, id] + Put16(length) + auth;
    var buf := Wire(code, id, auth, attrs) + extra;
    assert buf == head + Body(attrs) + extra;
    assert buf[2..4] == Put16(length);
    Get16Put16(length);
    ParseWritten(buf, head, attrs, extra, length);
  }

  /** Encode after Decode: every Access-Request that Decode accepts encodes back to its own bytes, cut to the
      length field. */
  lemma AcceptedRequestRewrites(buf: seq<byte>, secret: seq<byte>, crypto: Crypto)
    requires Decoded(buf, secret, crypto).Some? && buf[0] == ACCESS_REQUEST
    ensures LengthField(buf) <= |buf|
    ensures Encoded(Decoded(buf, secret, crypto).value, secret, [], crypto) == Some(buf[..LengthField(buf)])
  {
    var p := Decoded(buf, secret, crypto).value;
    RequestRewrites(buf, LengthField(buf), p.attrs);
    assert Encoded(p, secret, [], crypto) == Some(Wire(buf[0], buf[1], buf[4..HEADER_LEN], p.attrs));
  }

  lemma RequestRewrites(buf: seq<byte>, length: nat, attrs: seq<Attribute>)
    requires HEADER_LEN <= length <= |buf| && length == LengthField(buf) && ParseAttrs(buf, HEADER_LEN, length) == Some(attrs)
    ensures Wire(buf[0], buf[1], buf[4..HEADER_LEN], attrs) == buf[..length] && HEADER_LEN + |Body(attrs)| == length
  {
    ParsedRewrites(buf, HEADER_LEN, length);
    Put16Get16(buf[2..4]);
    FourParts(buf, length);
  }

  lemma FourParts(buf: seq<byte>, length: nat)
    requires HEADER_LEN <= length <= |buf|
    ensures buf[..length] == [buf[0], buf[1]] + buf[2..4] + buf[4..HEADER_LEN] + buf[HEADER_LEN..length]
  {
  }

  // ---------------------------------------------------------------- replies

  lemma ZeroMacHit(packet: seq<byte>, head: seq<byte>, a: Attribute, rest: seq<byte>)
    requires |a.value| <= MAX_VALUE_LEN && packet == head + Tlv(a) + rest && a.kind == MESSAGE_AUTHENTICATOR
    ensures ZeroMac(packet, |head|) == Some(head + Tlv(Attribute(a.kind, Zeros(|a.value|))) + rest)
  {
    TlvAt(packet, head, a, rest);
    var tag := [a.kind, 2 + |a.value|];
    SpliceMiddle(head + tag, a.value, Zeros(|a.value|), rest);
    assert packet == (head + tag) + a.value + rest;
    assert (head + tag) + Zeros(|a.value|) + rest == head + Tlv(Attribute(a.kind, Zeros(|a.value|))) + rest;
  }

  lemma ZeroMacMiss(packet: seq<byte>, head: seq<byte>, a: Attribute, rest: seq<byte>)
    requires |a.value| <= MAX_VALUE_LEN && packet == head + Tlv(a) + rest && a.kind != MESSAGE_AUTHENTICATOR
    ensures ZeroMac(packet, |head|) == ZeroMac(packet, |head + Tlv(a)|)
  {
    TlvAt(packet, head, a, rest);
  }

  function ZeroedMac(attrs: seq<Attribute>): seq<Attribute> {
    WithFirst(attrs, MESSAGE_AUTHENTICATOR, Zeros(|FirstValue(attrs, MESSAGE_AUTHENTICATOR)|))
  }

  lemma ZeroedCons(a: Attribute, tail: seq<Attribute>)
    ensures ZeroedMac([a] + tail) == if a.kind == MESSAGE_AUTHENTICATOR then [Attribute(a.kind, Zeros(|a.value|))] + tail
                                     else [a] + ZeroedMac(tail)
  {
    assert ([a] + tail)[1..] == tail;
  }

  /** The byte-level walk zeroes what the attribute-level description says it zeroes. */
  lemma {:induction false} ZeroMacOfWritten(packet: seq<byte>, head: seq<byte>, attrs: seq<Attribute>)
    requires Encodable(attrs) && packet == head + Body(attrs)
    ensures ZeroMac(packet, |head|) == Some(head + Body(ZeroedMac(attrs)))
    decreases |attrs|
  {
    if attrs == [] {
    } else {
      var a, tail := attrs[0], attrs[1..];
      assert attrs == [a] + tail;
      ZeroedCons(a, tail);
      Regroup(head, Tlv(a), Body(tail), []);
      if a.kind == MESSAGE_AUTHENTICATOR {
        ZeroMacHit(packet, head, a, Body(tail));
        assert ZeroedMac(attrs)[1..] == tail;
        Regroup(head, Tlv(Attribute(a.kind, Zeros(|a.value|))), Body(tail), []);
      } else {
        ZeroMacMiss(packet, head, a, Body(tail));
        assert Encodable(tail);
        ZeroMacOfWritten(packet, head + Tlv(a), tail);
        assert ZeroedMac(attrs)[1..] == ZeroedMac(tail);
        Regroup(head, Tlv(a), Body(ZeroedMac(tail)), []);
      }
    }
  }

  lemma RewriteFirst(attrs: seq<Attribute>, kind: byte, v: seq<byte>, w: seq<byte>)
    ensures FirstIndex(WithFirst(attrs, kind, v), kind) == FirstIndex(attrs, kind)
    ensures FirstIndex(attrs, kind) < |attrs| ==> FirstValue(WithFirst(attrs, kind, v), kind) == v
    ensures WithFirst(WithFirst(attrs, kind, v), kind, w) == WithFirst(attrs, kind, w)
  {
    var i := FirstIndex(attrs, kind);
    var attrs' := WithFirst(attrs, kind, v);
    var j := FirstIndex(attrs', kind);
    if i < |attrs| {
      assert attrs'[i].kind == kind;
      assert j == i;
    }
  }

  /** What goes out of Encode for a reply, read attribute by attribute. */
  lemma ReplyLayout(p: Packet, secret: seq<byte>, reqAuth: seq<byte>, crypto: Crypto)
    requires Signed(p.code) && secret != [] && |reqAuth| == DIGEST_LEN
    requires Encoded(p, secret, reqAuth, crypto).Some?
    ensures var attrs := WithMac(p.code, p.identifier, reqAuth, Prepared(p, secret), secret, crypto);
            Encoded(p, secret, reqAuth, crypto).value ==
            Wire(p.code, p.identifier, ResponseAuth(p.code, p.identifier, attrs, reqAuth, secret, crypto), attrs)
  {
  }

  /** The Message-Authenticator the receiver finds, checked against the packet with the request's authenticator. */
  lemma MacOfStamped(code: byte, id: byte, reqAuth: Digest, attrs: seq<Attribute>, secret: seq<byte>, crypto: Crypto)
    requires Encodable(attrs) && FirstIndex(attrs, MESSAGE_AUTHENTICATOR) < |attrs|
    ensures var out := WithMac(code, id, reqAuth, attrs, secret, crypto);
            MacVerifies(Wire(code, id, reqAuth, out), FirstValue(out, MESSAGE_AUTHENTICATOR), secret, crypto)
            <==> |FirstValue(attrs, MESSAGE_AUTHENTICATOR)| == DIGEST_LEN
  {
    var room := |FirstValue(attrs, MESSAGE_AUTHENTICATOR)|;
    var zeroed := WithFirst(attrs, MESSAGE_AUTHENTICATOR, Zeros(room));
    var mac := crypto.hmac(secret, Wire(code, id, reqAuth, zeroed));
    var out := WithMac(code, id, reqAuth, attrs, secret, crypto);
    WithMacIs(code, id, reqAuth, attrs, secret, crypto);
    RewriteFirst(attrs, MESSAGE_AUTHENTICATOR, Fitted(mac, room), Zeros(room));
    ZeroedOut(code, id, reqAuth, attrs, secret, crypto);
    FittedIsWhole(mac, room);
  }

  lemma FittedIsWhole(mac: Digest, room: nat)
    ensures Fitted(mac, room) == mac <==> room == DIGEST_LEN
  {
  }

  lemma WithMacIs(code: byte, id: byte, reqAuth: Digest, attrs: seq<Attribute>, secret: seq<byte>, crypto: Crypto)
    ensures var room := |FirstValue(attrs, MESSAGE_AUTHENTICATOR)|;
            var zeroed := WithFirst(attrs, MESSAGE_AUTHENTICATOR, Zeros(room));
            WithMac(code, id, reqAuth, attrs, secret, crypto)
            == WithFirst(attrs, MESSAGE_AUTHENTICATOR, Fitted(crypto.hmac(secret, Wire(code, id, reqAuth, zeroed)), room))
  {
  }

  lemma ZeroMacOfWire(code: byte, id: byte, auth: Digest, attrs: seq<Attribute>, zeroed: seq<Attribute>)
    requires Encodable(attrs) && zeroed == ZeroedMac(attrs) && |Body(zeroed)| == |Body(attrs)|
    ensures ZeroMac(Wire(code, id, auth, attrs), HEADER_LEN) == Some(Wire(code, id, auth, zeroed))
  {
    var head := [code, id] + Put16(HEADER_LEN + |Body(attrs)|) + auth;
    ZeroMacOfWritten(Wire(code, id, auth, attrs), head, attrs);
  }

  /** Zeroing the stamped packet's Message-Authenticator gives the bytes the stamp was computed over. */
  lemma ZeroedOut(code: byte, id: byte, reqAuth: Digest, attrs: seq<Attribute>, secret: seq<byte>, crypto: Crypto)
    requires Encodable(attrs) && FirstIndex(attrs, MESSAGE_AUTHENTICATOR) < |attrs|
    ensures var out := WithMac(code, id, reqAuth, attrs, secret, crypto);
            ZeroMac(Wire(code, id, reqAuth, out), HEADER_LEN)
            == Some(Wire(code, id, reqAuth, WithFirst(attrs, MESSAGE_AUTHENTICATOR, Zeros(|FirstValue(attrs, MESSAGE_AUTHENTICATOR)|))))
  {
    var room := |FirstValue(attrs, MESSAGE_AUTHENTICATOR)|;
    var zeroed := WithFirst(attrs, MESSAGE_AUTHENTICATOR, Zeros(room));
    var mac := crypto.hmac(secret, Wire(code, id, reqAuth, zeroed));
    var out := WithMac(code, id, reqAuth, attrs, secret, crypto);
    WithMacIs(code, id, reqAuth, attrs, secret, crypto);
    StillEncodable(attrs, Fitted(mac, room));
    RewriteFirst(attrs, MESSAGE_AUTHENTICATOR, Fitted(mac, room), Zeros(room));
    SameSize(code, id, reqAuth, attrs, secret, crypto);
    ReplaceIsSplice(code, id, reqAuth, attrs, FirstIndex(attrs, MESSAGE_AUTHENTICATOR), Zeros(room));
    ZeroMacOfWire(code, id, reqAuth, out, zeroed);
  }

  lemma StillEncodable(attrs: seq<Attribute>, v: seq<byte>)
    requires Encodable(attrs) && |v| == |FirstValue(attrs, MESSAGE_AUTHENTICATOR)|
    ensures Encodable(WithFirst(attrs, MESSAGE_AUTHENTICATOR, v))
  {
  }

  /** A packet on the wire, taken apart. */
  lemma SentWire(code: byte, id: byte, sum: Digest, reqAuth: Digest, attrs: seq<Attribute>, out: seq<byte>)
    requires Encodable(attrs) && HEADER_LEN + |Body(attrs)| <= MAX_PACKET_LEN && out == Wire(code, id, sum, attrs)
    ensures HEADER_LEN <= |out| <= MAX_PACKET_LEN
    ensures out[..4] == [code, id] + Put16(HEADER_LEN + |Body(attrs)|) && out[4..20] == sum && out[20..] == Body(attrs)
    ensures ParseAttrs(out, HEADER_LEN, |out|) == Some(attrs)
    ensures Splice(out, 4, reqAuth) == Wire(code, id, reqAuth, attrs)
  {
    WireParts(code, id, sum, attrs);
    ReadHeader(code, id, sum, attrs, []);
    assert out + [] == out;
    AuthIsSplice(code, id, sum, reqAuth, attrs);
  }

  lemma SignedAgree(p: Packet, secret: seq<byte>, reqAuth: Digest, crypto: Crypto)
    requires Signed(p.code) && secret != [] && Encodable(p.attrs)
    requires Encoded(p, secret, reqAuth, crypto).Some?
    ensures var out := Encoded(p, secret, reqAuth, crypto).value;
            && HEADER_LEN <= |out| <= MAX_PACKET_LEN
            && out[4..HEADER_LEN] == crypto.md5(out[..4] + reqAuth + out[HEADER_LEN..] + secret)
            && ParseAttrs(out, HEADER_LEN, |out|).Some?
            && var ma := FirstValue(ParseAttrs(out, HEADER_LEN, |out|).value, MESSAGE_AUTHENTICATOR);
               MacVerifies(Splice(out, 4, reqAuth), ma, secret, crypto)
               <==> (forall i | 0 <= i < |p.attrs| && p.attrs[i].kind == MESSAGE_AUTHENTICATOR ::
                       |FirstValue(p.attrs, MESSAGE_AUTHENTICATOR)| == DIGEST_LEN)
  {
    var attrs := Prepared(p, secret);
    var final := WithMac(p.code, p.identifier, reqAuth, attrs, secret, crypto);
    var sum := ResponseAuth(p.code, p.identifier, final, reqAuth, secret, crypto);
    var out := Encoded(p, secret, reqAuth, crypto).value;
    ReplyLayout(p, secret, reqAuth, crypto);
    assert Encodable(attrs);
    assert Encodable(final);
    SameSize(p.code, p.identifier, reqAuth, attrs, secret, crypto);
    SentWire(p.code, p.identifier, sum, reqAuth, final, out);
    MacOfStamped(p.code, p.identifier, reqAuth, attrs, secret, crypto);
    PreparedFirst(p, secret);
  }

  /** Stamped in two stages, the two authenticators of a signed reply still agree.  The bytes 4 to 20 that Encode
      leaves are the section 3 digest over the finished attributes; and with the request's authenticator put back
      there, the Message-Authenticator verifies, exactly when the packet brought none or a 16-byte one first. */
  lemma AuthenticatorsAgree(p: Packet, secret: seq<byte>, reqAuth: Digest, crypto: Crypto)
    requires p.code in {2, 3, 11} && secret != [] && Encodable(p.attrs)
    requires Encoded(p, secret, reqAuth, crypto).Some?
    ensures var out := Encoded(p, secret, reqAuth, crypto).value;
            && HEADER_LEN <= |out| <= MAX_PACKET_LEN
            && out[4..HEADER_LEN] == crypto.md5(out[..4] + reqAuth + out[HEADER_LEN..] + secret)
            && ParseAttrs(out, HEADER_LEN, |out|).Some?
            && var ma := FirstValue(ParseAttrs(out, HEADER_LEN, |out|).value, MESSAGE_AUTHENTICATOR);
               MacVerifies(Splice(out, 4, reqAuth), ma, secret, crypto)
               <==> (forall i | 0 <= i < |p.attrs| && p.attrs[i].kind == MESSAGE_AUTHENTICATOR ::
                       |FirstValue(p.attrs, MESSAGE_AUTHENTICATOR)| == DIGEST_LEN)
  {
    SignedCodes(p.code);
    SignedAgree(p, secret, reqAuth, crypto);
  }

  /** Access-Accept, Access-Reject and Access-Challenge are the signed ones. */
  lemma SignedCodes(code: byte)
    ensures Signed(code) <==> code in {2, 3, 11}
  {
  }

  lemma PreparedFirst(p: Packet, secret: seq<byte>)
    requires Signed(p.code) && secret != []
    ensures |FirstValue(Prepared(p, secret), MESSAGE_AUTHENTICATOR)| == DIGEST_LEN
            <==> (forall i | 0 <= i < |p.attrs| && p.attrs[i].kind == MESSAGE_AUTHENTICATOR ::
                    |FirstValue(p.attrs, MESSAGE_AUTHENTICATOR)| == DIGEST_LEN)
  {
    var i := FirstIndex(p.attrs, MESSAGE_AUTHENTICATOR);
    var attrs := Prepared(p, secret);
    var j := FirstIndex(attrs, MESSAGE_AUTHENTICATOR);
    if i < |p.attrs| {
      assert attrs[i].kind == MESSAGE_AUTHENTICATOR && attrs[i] == p.attrs[i];
      assert j == i;
    } else {
      assert attrs == p.attrs + [Attribute(MESSAGE_AUTHENTICATOR, Zeros(DIGEST_LEN))];
      assert attrs[|p.attrs|].kind == MESSAGE_AUTHENTICATOR;
      assert j == |p.attrs|;
    }
  }

  /** A reply decodes to the packet that was encoded, with the Response Authenticator as its
      authenticator and only the first Message-Authenticator changed. */
  lemma ReplyRoundTrip(p: Packet, secret: seq<byte>, reqAuth: Digest, crypto: Crypto)
    requires p.code in {2, 3, 11} && secret != [] && Encodable(p.attrs)
    requires Encoded(p, secret, reqAuth, crypto).Some?
    ensures var final := WithMac(p.code, p.identifier, reqAuth, Prepared(p, secret), secret, crypto);
            Decoded(Encoded(p, secret, reqAuth, crypto).value, secret, crypto) ==
            Some(Packet(p.code, p.identifier, ResponseAuth(p.code, p.identifier, final, reqAuth, secret, crypto), final))
  {
    var attrs := Prepared(p, secret);
    var final := WithMac(p.code, p.identifier, reqAuth, attrs, secret, crypto);
    assert Encodable(attrs);
    assert Encodable(final);
    ReplyLayout(p, secret, reqAuth, crypto);
    SameSize(p.code, p.identifier, reqAuth, attrs, secret, crypto);
    var out := Encoded(p, secret, reqAuth, crypto).value;
    ReadHeader(p.code, p.identifier, ResponseAuth(p.code, p.identifier, final, reqAuth, secret, crypto), final, []);
    assert out + [] == out;
  }

  // ---------------------------------------------------------------- byte by byte

  /** Every server reply carries the section 3 digest in bytes 4 to 20, whatever the secret and the authenticator asked
      with. */
  lemma ResponseAuthenticator(p: Packet, secret: seq<byte>, reqAuth: seq<byte>, crypto: Crypto)
    requires p.code in {2, 3, 5, 11} && Encoded(p, secret, reqAuth, crypto).Some?
    ensures var out := Encoded(p, secret, reqAuth, crypto).value;
            && 20 <= |out| <= 4096 && out[0] == p.code && out[1] == p.identifier
            && out[4..20] == crypto.md5(out[..4] + reqAuth + out[20..] + secret)
  {
    var attrs := Prepared(p, secret);
    var final := if Signed(p.code) && secret != []
                 then WithMac(p.code, p.identifier, InitialAuth(p, reqAuth), attrs, secret, crypto) else attrs;
    if Signed(p.code) && secret != [] {
      SameSize(p.code, p.identifier, InitialAuth(p, reqAuth), attrs, secret, crypto);
    }
    var sum := ResponseAuth(p.code, p.identifier, final, reqAuth, secret, crypto);
    var out := Encoded(p, secret, reqAuth, crypto).value;
    assert out == Wire(p.code, p.identifier, sum, final);
    WireParts(p.code, p.identifier, sum, final);
  }

  lemma WireParts(code: byte, id: byte, auth: Digest, attrs: seq<Attribute>)
    ensures var w := Wire(code, id, auth, attrs);
            && w[0] == code && w[1] == id && w[..4] == [code, id] + Put16(HEADER_LEN + |Body(attrs)|)
            && w[4..20] == auth && w[20..] == Body(attrs)
  {
  }

  /** A packet on the wire: code, identifier, the size of it all with the high byte first, authenticator, attributes. */
  lemma WireLayout(code: byte, id: byte, auth: Digest, attrs: seq<Attribute>)
    requires |Wire(code, id, auth, attrs)| <= 4096
    ensures var w := Wire(code, id, auth, attrs);
            w == [code, id, |w| / 256, |w| % 256] + auth + Body(attrs)
  {
    Put16Bytes(HEADER_LEN + |Body(attrs)|);
  }

  /** An attribute among others on the wire: type, its size with the two bytes in front, value. */
  lemma AttributeLayout(attrs: seq<Attribute>, i: nat)
    requires i < |attrs| && |attrs[i].value| <= 253
    ensures Body(attrs) ==
            Body(attrs[..i]) + ([attrs[i].kind, 2 + |attrs[i].value|] + attrs[i].value) + Body(attrs[i + 1..])
    ensures Body([]) == []
  {
    BodyAround(attrs, i);
  }

  /** A Message-Authenticator verifies exactly when it is the keyed hash of the packet with the first value of its type
      zeroed. */
  lemma MacVerifiesMeans(head: seq<byte>, attrs: seq<Attribute>, i: nat, ma: seq<byte>, secret: seq<byte>, crypto: Crypto)
    requires |head| == 20 && Encodable(attrs)
    requires i < |attrs| && attrs[i].kind == 80 && forall k | 0 <= k < i :: attrs[k].kind != 80
    ensures MacVerifies(head + Body(attrs), ma, secret, crypto) <==>
              ma == crypto.hmac(secret, head + Body(attrs[i := Attribute(80, seq(|attrs[i].value|, _ => 0))]))
  {
    ZeroMacOfWritten(head + Body(attrs), head, attrs);
    assert FirstIndex(attrs, MESSAGE_AUTHENTICATOR) == i;
    assert Zeros(|attrs[i].value|) == seq(|attrs[i].value|, _ => 0);
  }

  /** Accepted buffers: 20 bytes at least, a length field within 20, 4096 and the buffer, and up to it attributes that fill
      it exactly; these are what the packet holds. */
  lemma AcceptedIsWellFormed(buf: seq<byte>, secret: seq<byte>, crypto: Crypto)
    requires Decoded(buf, secret, crypto).Some?
    ensures var p := Decoded(buf, secret, crypto).value;
            && |buf| >= 20
            && var hi: int, lo: int := buf[2], buf[3];
               var n := 256 * hi + lo;
               && 20 <= n <= 4096 && n <= |buf|
               && Encodable(p.attrs) && Body(p.attrs) == buf[20..n]
               && p.code == buf[0] && p.identifier == buf[1] && p.authenticator == buf[4..20]
  {
    ParsedRewrites(buf, HEADER_LEN, LengthField(buf));
  }

  /** And every such buffer is accepted, unless it is a request with a Message-Authenticator that does not verify. */
  lemma WellFormedIsAccepted(buf: seq<byte>, attrs: seq<Attribute>, secret: seq<byte>, crypto: Crypto)
    requires |buf| >= 20
    requires var hi: int, lo: int := buf[2], buf[3];
             var n := 256 * hi + lo;
             20 <= n <= 4096 && n <= |buf| && Encodable(attrs) && Body(attrs) == buf[20..n]
    ensures var hi: int, lo: int := buf[2], buf[3];
            var ma := FirstValue(attrs, 80);
            Decoded(buf, secret, crypto) ==
            if buf[0] == 1 && ma != [] && !MacVerifies(buf[..256 * hi + lo], ma, secret, crypto) then None
            else Some(Packet(buf[0], buf[1], buf[4..20], attrs))
  {
    var n := LengthField(buf);
    assert buf == buf[..20] + Body(attrs) + buf[n..];
    ParseWritten(buf, buf[..20], attrs, buf[n..], n);
  }
}
