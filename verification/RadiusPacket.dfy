/**
 The RADIUS packet codec.  A packet on the wire is described attribute by attribute (`Wire`), and so are
 the two authenticators of a reply: section 3 of RFC 2865 for the Response Authenticator and section 3.2
 of RFC 3579 for the Message-Authenticator.  The methods work as the source does, by offsets into one
 buffer that is filled, zeroed and stamped in place, and are proved to produce that description.

 A nil attribute value and an empty one are the same here, as they are for every value the source
 parses or adds.
 */
module RadiusPacket {
  import opened Option
  import opened Bytes

  const ACCESS_REQUEST: byte := 1
  const ACCESS_ACCEPT: byte := 2
  const ACCESS_REJECT: byte := 3
  const ACCOUNTING_RESPONSE: byte := 5
  const ACCESS_CHALLENGE: byte := 11
  const MESSAGE_AUTHENTICATOR: byte := 80
  const HEADER_LEN := 20
  const MAX_PACKET_LEN := 4096
  const MAX_VALUE_LEN := 253

  datatype Attribute = Attribute(kind: byte, value: seq<byte>)

  datatype Packet = Packet(code: byte, identifier: byte, authenticator: Digest, attrs: seq<Attribute>)

  // ---------------------------------------------------------------- attributes

  /** Type, length, value; the length byte wraps as uint8 does. */
  function Tlv(a: Attribute): (t: seq<byte>)
    ensures |t| == 2 + |a.value|
  {
    [a.kind, (2 + |a.value|) % 256] + a.value
  }

  function Body(attrs: seq<Attribute>): seq<byte> {
    if attrs == [] then [] else Tlv(attrs[0]) + Body(attrs[1..])
  }

  function FirstIndex(attrs: seq<Attribute>, kind: byte): (i: nat)
    ensures i <= |attrs|
    ensures i < |attrs| ==> attrs[i].kind == kind
    ensures forall k | 0 <= k < i :: attrs[k].kind != kind
  {
    if attrs == [] || attrs[0].kind == kind then 0 else 1 + FirstIndex(attrs[1..], kind)
  }

  /** The first value of a type; empty when there is none. */
  function FirstValue(attrs: seq<Attribute>, kind: byte): seq<byte> {
    var i := FirstIndex(attrs, kind);
    if i < |attrs| then attrs[i].value else []
  }

  predicate Encodable(attrs: seq<Attribute>) {
    forall i | 0 <= i < |attrs| :: |attrs[i].value| <= MAX_VALUE_LEN
  }

  lemma {:induction false} BodyConcat(a: seq<Attribute>, b: seq<Attribute>)
    ensures Body(a + b) == Body(a) + Body(b)
  {
    if a == [] {
      assert a + b == b;
    } else {
      assert (a + b)[0] == a[0] && (a + b)[1..] == a[1..] + b;
      BodyConcat(a[1..], b);
    }
  }

  lemma BodyOne(a: Attribute)
    ensures Body([a]) == Tlv(a)
  {
    assert [a][1..] == [];
  }

  lemma BodyTake(attrs: seq<Attribute>, i: nat)
    requires i < |attrs|
    ensures Body(attrs[..i + 1]) == Body(attrs[..i]) + Tlv(attrs[i])
  {
    assert attrs[..i + 1] == attrs[..i] + [attrs[i]];
    BodyConcat(attrs[..i], [attrs[i]]);
    BodyOne(attrs[i]);
  }

  /** Body, cut around one attribute. */
  lemma BodyAround(attrs: seq<Attribute>, i: nat)
    requires i < |attrs|
    ensures Body(attrs) == Body(attrs[..i]) + Tlv(attrs[i]) + Body(attrs[i + 1..])
  {
    assert attrs == attrs[..i + 1] + attrs[i + 1..];
    BodyConcat(attrs[..i + 1], attrs[i + 1..]);
    BodyTake(attrs, i);
  }

  // ---------------------------------------------------------------- the wire format

  /** Section 3 of RFC 2865: code, identifier, length, authenticator, attributes. */
  function Wire(code: byte, id: byte, auth: Digest, attrs: seq<Attribute>): (w: seq<byte>)
    ensures |w| == HEADER_LEN + |Body(attrs)|
    ensures w[HEADER_LEN..] == Body(attrs)
  {
    [code, id] + Put16(HEADER_LEN + |Body(attrs)|) + auth + Body(attrs)
  }

  predicate Signed(code: byte) {
    code == ACCESS_ACCEPT || code == ACCESS_REJECT || code == ACCESS_CHALLENGE
  }

  predicate ServerReply(code: byte) {
    Signed(code) || code == ACCOUNTING_RESPONSE
  }

  /** The attributes a packet goes out with: signed replies get a Message-Authenticator if they have none. */
  function Prepared(p: Packet, secret: seq<byte>): (attrs: seq<Attribute>)
    ensures Signed(p.code) && secret != [] ==> FirstIndex(attrs, MESSAGE_AUTHENTICATOR) < |attrs|
  {
    if Signed(p.code) && secret != [] && FirstValue(p.attrs, MESSAGE_AUTHENTICATOR) == []
    then
      var attrs := p.attrs + [Attribute(MESSAGE_AUTHENTICATOR, Zeros(DIGEST_LEN))];
      assert attrs[|p.attrs|].kind == MESSAGE_AUTHENTICATOR;
      attrs
    else p.attrs
  }

  function InitialAuth(p: Packet, reqAuth: seq<byte>): Digest {
    if |reqAuth| == DIGEST_LEN then reqAuth else if p.code == ACCESS_REQUEST then p.authenticator else Zeros(DIGEST_LEN)
  }

  /** The same attributes with the first one of a type holding another value. */
  function WithFirst(attrs: seq<Attribute>, kind: byte, value: seq<byte>): seq<Attribute> {
    var i := FirstIndex(attrs, kind);
    if i < |attrs| then attrs[i := Attribute(kind, value)] else attrs
  }

  /** As much of the digest as a field of `room` bytes holds; the rest of the field is zero. */
  function Fitted(mac: Digest, room: nat): (v: seq<byte>)
    ensures |v| == room
  {
    if room <= DIGEST_LEN then mac[..room] else mac + Zeros(room - DIGEST_LEN)
  }

  /** Section 3.2 of RFC 3579: HMAC-MD5 over the packet with the field zeroed and the request's authenticator in place. */
  function WithMac(code: byte, id: byte, auth: Digest, attrs: seq<Attribute>, secret: seq<byte>, crypto: Crypto): seq<Attribute>
  {
    var room := |FirstValue(attrs, MESSAGE_AUTHENTICATOR)|;
    var mac := crypto.hmac(secret, Wire(code, id, auth, WithFirst(attrs, MESSAGE_AUTHENTICATOR, Zeros(room))));
    WithFirst(attrs, MESSAGE_AUTHENTICATOR, Fitted(mac, room))
  }

  /** ResponseAuth = MD5(Code + ID + Length + RequestAuth + Attributes + Secret). */
  function ResponseAuth(code: byte, id: byte, attrs: seq<Attribute>, reqAuth: seq<byte>, secret: seq<byte>, crypto: Crypto): Digest
  {
    crypto.md5([code, id] + Put16(HEADER_LEN + |Body(attrs)|) + reqAuth + Body(attrs) + secret)
  }

  /** None when the packet would exceed 4096 bytes. */
  function Encoded(p: Packet, secret: seq<byte>, reqAuth: seq<byte>, crypto: Crypto): Option<seq<byte>> {
    var attrs := Prepared(p, secret);
    if HEADER_LEN + |Body(attrs)| > MAX_PACKET_LEN then None
    else
      var auth := InitialAuth(p, reqAuth);
      var out := if Signed(p.code) && secret != [] then WithMac(p.code, p.identifier, auth, attrs, secret, crypto) else attrs;
      Some(Wire(p.code, p.identifier,
                if ServerReply(p.code) then ResponseAuth(p.code, p.identifier, out, reqAuth, secret, crypto) else auth, out))
  }

  /** Everything on the wire before the value of attribute `i`. */
  function Upto(code: byte, id: byte, auth: Digest, attrs: seq<Attribute>, i: nat): (u: seq<byte>)
    requires i < |attrs|
    ensures |u| == HEADER_LEN + |Body(attrs[..i])| + 2
  {
    [code, id] + Put16(HEADER_LEN + |Body(attrs)|) + auth + Body(attrs[..i]) + [attrs[i].kind, (2 + |attrs[i].value|) % 256]
  }

  lemma WireAround(code: byte, id: byte, auth: Digest, attrs: seq<Attribute>, i: nat)
    requires i < |attrs|
    ensures Wire(code, id, auth, attrs) == Upto(code, id, auth, attrs, i) + attrs[i].value + Body(attrs[i + 1..])
  {
    BodyAround(attrs, i);
  }

  /** Replacing a value by one of the same length is a splice at that value's offset. */
  lemma ReplaceIsSplice(code: byte, id: byte, auth: Digest, attrs: seq<Attribute>, i: nat, v: seq<byte>)
    requires i < |attrs| && |v| == |attrs[i].value|
    ensures var at := HEADER_LEN + |Body(attrs[..i])| + 2;
            var attrs' := attrs[i := Attribute(attrs[i].kind, v)];
            && at + |v| <= |Wire(code, id, auth, attrs)|
            && |Body(attrs')| == |Body(attrs)| && Body(attrs'[..i]) == Body(attrs[..i])
            && Wire(code, id, auth, attrs') == Splice(Wire(code, id, auth, attrs), at, v)
  {
    var attrs' := attrs[i := Attribute(attrs[i].kind, v)];
    assert attrs'[..i] == attrs[..i] && attrs'[i + 1..] == attrs[i + 1..];
    BodyAround(attrs, i);
    BodyAround(attrs', i);
    WireAround(code, id, auth, attrs, i);
    WireAround(code, id, auth, attrs', i);
    SpliceMiddle(Upto(code, id, auth, attrs, i), attrs[i].value, v, Body(attrs[i + 1..]));
  }

  lemma SpliceMiddle(a: seq<byte>, b: seq<byte>, v: seq<byte>, c: seq<byte>)
    requires |b| == |v|
    ensures Splice(a + b + c, |a|, v) == a + v + c
  {
  }

  /** The ordered list a packet is built up in.  Add cuts a value at 253 bytes, so a list built by it alone
      always encodes without a length byte wrapping. */
  class AttributeList {
    var items: seq<Attribute>

    constructor ()
      ensures items == []
    {
      items := [];
    }

    method Add(kind: byte, v: seq<byte>)
      modifies this
      ensures items == old(items) + [Attribute(kind, if |v| > MAX_VALUE_LEN then v[..MAX_VALUE_LEN] else v)]
      ensures Encodable(old(items)) ==> Encodable(items)
    {
      var value := v;
      if |v| > MAX_VALUE_LEN {
        value := v[..MAX_VALUE_LEN];
      }
      items := items + [Attribute(kind, value)];
    }
  }

  // ---------------------------------------------------------------- encoding in place

  method PutTlv(out: array<byte>, off: nat, a: Attribute)
    requires off + |Tlv(a)| <= out.Length
    modifies out
    ensures out[..off + 2 + |a.value|] == old(out[..off]) + Tlv(a)
  {
    Copy(out, off, [a.kind, (2 + |a.value|) % 256]);
    Copy(out, off + 2, a.value);
    assert out[..off + 2 + |a.value|] == out[..off] + Tlv(a);
  }

  method FillBody(out: array<byte>, attrs: seq<Attribute>)
    requires out.Length == HEADER_LEN + |Body(attrs)|
    modifies out
    ensures out[..] == old(out[..HEADER_LEN]) + Body(attrs)
  {
    var off := HEADER_LEN;
    ghost var head := out[..HEADER_LEN];
    for i := 0 to |attrs|
      invariant off == HEADER_LEN + |Body(attrs[..i])| <= out.Length
      invariant out[..off] == head + Body(attrs[..i])
    {
      BodyTake(attrs, i);
      BodyAround(attrs, i);
      PutTlv(out, off, attrs[i]);
      off := off + 2 + |attrs[i].value|;
    }
    assert attrs[..|attrs|] == attrs && out[..off] == out[..];
  }

  /** Find the first Message-Authenticator, zero it, and stamp the keyed hash of the buffer over it. */
  method StampMac(out: array<byte>, p: Packet, auth: Digest, attrs: seq<Attribute>, secret: seq<byte>, crypto: Crypto)
    requires FirstIndex(attrs, MESSAGE_AUTHENTICATOR) < |attrs|
    requires out[..] == Wire(p.code, p.identifier, auth, attrs)
    modifies out
    ensures out[..] == Wire(p.code, p.identifier, auth, WithMac(p.code, p.identifier, auth, attrs, secret, crypto))
  {
    var off := HEADER_LEN;
    var i := 0;
    while attrs[i].kind != MESSAGE_AUTHENTICATOR
      invariant 0 <= i <= FirstIndex(attrs, MESSAGE_AUTHENTICATOR)
      invariant off == HEADER_LEN + |Body(attrs[..i])|
      invariant out[..] == Wire(p.code, p.identifier, auth, attrs)
      decreases |attrs| - i
    {
      BodyTake(attrs, i);
      off := off + 2 + |attrs[i].value|;
      i := i + 1;
    }
    StampAt(out, p, auth, attrs, i, off + 2, secret, crypto);
  }

  method StampAt(out: array<byte>, p: Packet, auth: Digest, attrs: seq<Attribute>, ghost i: nat, at: nat,
                 secret: seq<byte>, crypto: Crypto)
    requires i == FirstIndex(attrs, MESSAGE_AUTHENTICATOR) < |attrs|
    requires at == HEADER_LEN + |Body(attrs[..i])| + 2
    requires out[..] == Wire(p.code, p.identifier, auth, attrs)
    modifies out
    ensures out[..] == Wire(p.code, p.identifier, auth, WithMac(p.code, p.identifier, auth, attrs, secret, crypto))
  {
    var room := |FirstValue(attrs, MESSAGE_AUTHENTICATOR)|;
    ReplaceIsSplice(p.code, p.identifier, auth, attrs, i, Zeros(room));
    Copy(out, at, Zeros(room));
    var mac := crypto.hmac(secret, out[..]);
    ReplaceIsSplice(p.code, p.identifier, auth, attrs, i, Fitted(mac, room));
    SpliceTwice(Wire(p.code, p.identifier, auth, attrs), at, room, mac);
    var n := if room < DIGEST_LEN then room else DIGEST_LEN;
    Copy(out, at, mac[..n]);
  }

  /** Zeroing a field and copying as much of the digest as fits leaves the fitted digest in it. */
  lemma SpliceTwice(s: seq<byte>, at: nat, room: nat, mac: Digest)
    requires at + room <= |s|
    ensures var n := if room < DIGEST_LEN then room else DIGEST_LEN;
            Splice(Splice(s, at, Zeros(room)), at, mac[..n]) == Splice(s, at, Fitted(mac, room))
  {
  }

  method TotalLength(attrs: seq<Attribute>) returns (total: nat)
    ensures total == HEADER_LEN + |Body(attrs)|
  {
    var bodyLen := 0;
    for i := 0 to |attrs|
      invariant bodyLen == |Body(attrs[..i])|
    {
      BodyTake(attrs, i);
      bodyLen := bodyLen + 2 + |attrs[i].value|;
    }
    assert attrs[..|attrs|] == attrs;
    total := HEADER_LEN + bodyLen;
  }

  method FillPacket(out: array<byte>, p: Packet, auth: Digest, attrs: seq<Attribute>)
    requires out.Length == HEADER_LEN + |Body(attrs)|
    modifies out
    ensures out[..] == Wire(p.code, p.identifier, auth, attrs)
  {
    Copy(out, 0, [p.code, p.identifier] + Put16(out.Length));
    Copy(out, 4, auth);
    assert out[..HEADER_LEN] == [p.code, p.identifier] + Put16(out.Length) + auth;
    FillBody(out, attrs);
  }

  /** The last step: hash the header, the request's authenticator, the attributes and the secret into bytes 4 to 20. */
  method StampResponse(out: array<byte>, p: Packet, ghost auth: Digest, ghost attrs: seq<Attribute>, reqAuth: seq<byte>,
                       secret: seq<byte>, crypto: Crypto)
    requires out[..] == Wire(p.code, p.identifier, auth, attrs)
    modifies out
    ensures out[..] == Wire(p.code, p.identifier, ResponseAuth(p.code, p.identifier, attrs, reqAuth, secret, crypto), attrs)
  {
    assert out[..4] == [p.code, p.identifier] + Put16(HEADER_LEN + |Body(attrs)|) && out[HEADER_LEN..] == Body(attrs);
    var sum := crypto.md5(out[..4] + reqAuth + out[HEADER_LEN..] + secret);
    Copy(out, 4, sum);
    AuthIsSplice(p.code, p.identifier, auth, sum, attrs);
  }

  lemma AuthIsSplice(code: byte, id: byte, auth: Digest, auth': Digest, attrs: seq<Attribute>)
    ensures Splice(Wire(code, id, auth, attrs), 4, auth') == Wire(code, id, auth', attrs)
  {
    SpliceMiddle([code, id] + Put16(HEADER_LEN + |Body(attrs)|), auth, auth', Body(attrs));
  }

  method Encode(p: Packet, secret: seq<byte>, reqAuth: seq<byte>, crypto: Crypto) returns (r: Option<seq<byte>>)
    ensures r == Encoded(p, secret, reqAuth, crypto)
  {
    var wantMac := Signed(p.code) && |secret| > 0;
    var attrs := p.attrs;
    if wantMac {
      var present := Get(attrs, MESSAGE_AUTHENTICATOR);
      if present == [] {
        attrs := attrs + [Attribute(MESSAGE_AUTHENTICATOR, Zeros(DIGEST_LEN))];
      }
    }
    assert attrs == Prepared(p, secret);
    var total := TotalLength(attrs);
    if total > MAX_PACKET_LEN {
      return None;
    }
    var out := new byte[total](_ => 0);
    var auth := InitialAuth(p, reqAuth);
    FillPacket(out, p, auth, attrs);
    ghost var final := attrs;
    if wantMac {
      StampMac(out, p, auth, attrs, secret, crypto);
      final := WithMac(p.code, p.identifier, auth, attrs, secret, crypto);
    }
    if ServerReply(p.code) {
      StampResponse(out, p, auth, final, reqAuth, secret, crypto);
    }
    r := Some(out[..]);
  }

  lemma SameSize(code: byte, id: byte, auth: Digest, attrs: seq<Attribute>, secret: seq<byte>, crypto: Crypto)
    requires FirstIndex(attrs, MESSAGE_AUTHENTICATOR) < |attrs|
    ensures |Body(WithMac(code, id, auth, attrs, secret, crypto))| == |Body(attrs)|
  {
    var i := FirstIndex(attrs, MESSAGE_AUTHENTICATOR);
    var mac := crypto.hmac(secret, Wire(code, id, auth, WithFirst(attrs, MESSAGE_AUTHENTICATOR, Zeros(|attrs[i].value|))));
    ReplaceIsSplice(code, id, auth, attrs, i, Fitted(mac, |attrs[i].value|));
  }

  // ---------------------------------------------------------------- decoding

  /** The attributes of buf[off..length]; None for a truncated or ill-sized one. */
  function ParseAttrs(buf: seq<byte>, off: nat, length: nat): Option<seq<Attribute>>
    requires off <= length <= |buf|
    decreases length - off
  {
    if off == length then Some([])
    else if off + 2 > length || buf[off + 1] < 2 || off + buf[off + 1] > length then None
    else
      var rest := ParseAttrs(buf, off + buf[off + 1], length);
      if rest.None? then None
      else Some([Attribute(buf[off], buf[off + 2..off + buf[off + 1]])] + rest.value)
  }

  /** The packet with its first Message-Authenticator zeroed; None when the walk meets an ill-sized attribute. */
  function ZeroMac(packet: seq<byte>, off: nat): Option<seq<byte>>
    decreases |packet| - off
  {
    if off + 2 > |packet| then Some(packet)
    else
      var l := packet[off + 1];
      if l < 2 || off + l > |packet| then None
      else if packet[off] == MESSAGE_AUTHENTICATOR then Some(Splice(packet, off + 2, Zeros(l - 2)))
      else ZeroMac(packet, off + l)
  }

  predicate MacVerifies(packet: seq<byte>, ma: seq<byte>, secret: seq<byte>, crypto: Crypto) {
    var zeroed := ZeroMac(packet, HEADER_LEN);
    zeroed.Some? && crypto.hmac(secret, zeroed.value) == ma
  }

  function LengthField(buf: seq<byte>): nat
    requires |buf| >= HEADER_LEN
  {
    Get16(buf[2..4])
  }

  function Decoded(buf: seq<byte>, secret: seq<byte>, crypto: Crypto): Option<Packet> {
    if |buf| < HEADER_LEN || !(HEADER_LEN <= LengthField(buf) <= MAX_PACKET_LEN && LengthField(buf) <= |buf|) then None
    else
      var attrs := ParseAttrs(buf, HEADER_LEN, LengthField(buf));
      if attrs.None? then None
      else
        var ma := FirstValue(attrs.value, MESSAGE_AUTHENTICATOR);
        if buf[0] == ACCESS_REQUEST && ma != [] && !MacVerifies(buf[..LengthField(buf)], ma, secret, crypto) then None
        else Some(Packet(buf[0], buf[1], buf[4..HEADER_LEN], attrs.value))
  }

  method Get(attrs: seq<Attribute>, kind: byte) returns (value: seq<byte>)
    ensures value == FirstValue(attrs, kind)
  {
    for i := 0 to |attrs|
      invariant FirstIndex(attrs, kind) >= i
    {
      if attrs[i].kind == kind {
        return attrs[i].value;
      }
    }
    return [];
  }

  method VerifyMessageAuthenticator(packet: seq<byte>, ma: seq<byte>, secret: seq<byte>, crypto: Crypto) returns (ok: bool)
    ensures ok == MacVerifies(packet, ma, secret, crypto)
  {
    var tmp := new byte[|packet|](_ => 0);
    Copy(tmp, 0, packet);
    assert tmp[..] == packet;
    ok := ZeroInPlace(tmp);
    if ok {
      ok := crypto.hmac(secret, tmp[..]) == ma;
    }
  }

  /** Find the first Message-Authenticator and zero its value; false on an ill-sized attribute before it. */
  method ZeroInPlace(tmp: array<byte>) returns (ok: bool)
    modifies tmp
    ensures ZeroMac(old(tmp[..]), HEADER_LEN) == if ok then Some(tmp[..]) else None
  {
    ghost var packet := tmp[..];
    var off := HEADER_LEN;
    while off + 2 <= tmp.Length
      invariant tmp[..] == packet
      invariant ZeroMac(packet, HEADER_LEN) == ZeroMac(packet, off)
      decreases tmp.Length - off
    {
      var l := tmp[off + 1];
      assert l == packet[off + 1] && tmp[off] == packet[off];
      if l < 2 || off + l > tmp.Length {
        return false;
      }
      if tmp[off] == MESSAGE_AUTHENTICATOR {
        Copy(tmp, off + 2, Zeros(l - 2));
        return true;
      }
      off := off + l;
    }
    ok := true;
  }

  method Decode(buf: seq<byte>, secret: seq<byte>, crypto: Crypto) returns (r: Option<Packet>)
    ensures r == Decoded(buf, secret, crypto)
  {
    if |buf| < HEADER_LEN {
      return None;
    }
    var length := Get16(buf[2..4]);
    if length < HEADER_LEN || length > MAX_PACKET_LEN || length > |buf| {
      return None;
    }
    var parsed := ReadAttrs(buf, length);
    if parsed.None? {
      return None;
    }
    var attrs := parsed.value;
    if buf[0] == ACCESS_REQUEST {
      var ma := Get(attrs, MESSAGE_AUTHENTICATOR);
      if ma != [] {
        var ok := VerifyMessageAuthenticator(buf[..length], ma, secret, crypto);
        if !ok {
          return None;
        }
      }
    }
    r := Some(Packet(buf[0], buf[1], buf[4..HEADER_LEN], attrs));
  }

  /** The attribute loop; it ends exactly at the length field. */
  method ReadAttrs(buf: seq<byte>, length: nat) returns (r: Option<seq<Attribute>>)
    requires HEADER_LEN <= length <= |buf|
    ensures r == ParseAttrs(buf, HEADER_LEN, length)
  {
    var attrs: seq<Attribute> := [];
    var off := HEADER_LEN;
    ghost var all := ParseAttrs(buf, off, length);
    assert all.Some? ==> attrs + all.value == all.value;
    while off < length
      invariant HEADER_LEN <= off <= length
      invariant var rest := ParseAttrs(buf, off, length);
                all == if rest.None? then None else Some(attrs + rest.value)
    {
      if off + 2 > length {
        return None;
      }
      var t, l := buf[off], buf[off + 1];
      if l < 2 || off + l > length {
        return None;
      }
      ghost var rest := ParseAttrs(buf, off + l, length);
      assert rest.Some? ==> attrs + ([Attribute(t, buf[off + 2..off + l])] + rest.value)
                            == (attrs + [Attribute(t, buf[off + 2..off + l])]) + rest.value;
      attrs := attrs + [Attribute(t, buf[off + 2..off + l])];
      off := off + l;
    }
    assert all == Some(attrs + []) && attrs + [] == attrs;
    r := Some(attrs);
  }
}
