/**
 The three replies the server sends.  Each Bytes method fills its buffer by offsets and is proved to
 produce the RFC 8907 layout; each reader is that section's layout read the other way, and gets the
 reply back exactly when every field fits the width of its length field.
 */
module TacacsReplies {
  import opened Option
  import opened Bytes
  import opened TacacsBodies

  // ---------------------------------------------------------------- section 5.2: authentication REPLY

  datatype AuthenReply = AuthenReply(status: byte, flags: byte, serverMsg: seq<byte>, data: seq<byte>)

  function AuthenLayout(r: AuthenReply): seq<byte> {
    [r.status, r.flags] + Put16(|r.serverMsg|) + Put16(|r.data|) + r.serverMsg + r.data
  }

  function ReadAuthenReply(body: seq<byte>): Option<AuthenReply> {
    if |body| < 6 || |body| < 6 + Get16(body[2..4]) + Get16(body[4..6]) then None
    else
      var d := 6 + Get16(body[2..4]);
      Some(AuthenReply(body[0], body[1], body[6..d], body[d..d + Get16(body[4..6])]))
  }

  lemma AuthenReplyRoundTrip(r: AuthenReply, extra: seq<byte>)
    ensures ReadAuthenReply(AuthenLayout(r) + extra) == Some(r) <==> Fits16(r.serverMsg) && Fits16(r.data)
  {
    var body := AuthenLayout(r) + extra;
    if Fits16(r.serverMsg) && Fits16(r.data) {
      var h := [r.status, r.flags] + Put16(|r.serverMsg|) + Put16(|r.data|);
      assert h + r.serverMsg + r.data + extra + [] == body;
      FiveParts(body, h, r.serverMsg, r.data, extra, []);
      Fixed(body, r.status, r.flags, |r.serverMsg|, |r.data|);
    }
  }

  /** Two bytes and two 16-bit counts at the front of a buffer. */
  lemma Fixed(body: seq<byte>, a: byte, b: byte, m: nat, d: nat)
    requires |body| >= 6 && body[..6] == [a, b] + Put16(m) + Put16(d) && m <= MAX16 && d <= MAX16
    ensures body[0] == a && body[1] == b && Get16(body[2..4]) == m && Get16(body[4..6]) == d
  {
    var h := body[..6];
    assert body[0] == h[0] && body[1] == h[1] && body[2..4] == h[2..4] == Put16(m) && body[4..6] == h[4..6] == Put16(d);
    Get16Put16(m);
    Get16Put16(d);
  }

  method AuthenReplyBytes(r: AuthenReply) returns (out: seq<byte>)
    ensures out == AuthenLayout(r)
  {
    var buf := new byte[6 + |r.serverMsg| + |r.data|](_ => 0);
    buf[0] := r.status;
    buf[1] := r.flags;
    Copy(buf, 2, Put16(|r.serverMsg|));
    Copy(buf, 4, Put16(|r.data|));
    assert buf[..6] == [r.status, r.flags] + Put16(|r.serverMsg|) + Put16(|r.data|);
    Copy(buf, 6, r.serverMsg);
    assert buf[..6 + |r.serverMsg|] == [r.status, r.flags] + Put16(|r.serverMsg|) + Put16(|r.data|) + r.serverMsg;
    Copy(buf, 6 + |r.serverMsg|, r.data);
    out := buf[..];
  }

  // ---------------------------------------------------------------- section 7.2: accounting REPLY

  datatype AcctReply = AcctReply(status: byte, serverMsg: seq<byte>, data: seq<byte>)

  /** The same shape as a CONTINUE, with the status where its flags are. */
  function AcctLayout(r: AcctReply): seq<byte> {
    (Put16(|r.serverMsg|) + Put16(|r.data|) + [r.status]) + r.serverMsg + r.data
  }

  function ReadAcctReply(body: seq<byte>): Option<AcctReply> {
    if |body| < 5 || |body| < 5 + Get16(body[0..2]) + Get16(body[2..4]) then None
    else
      var d := 5 + Get16(body[0..2]);
      Some(AcctReply(body[4], body[5..d], body[d..d + Get16(body[2..4])]))
  }

  lemma AcctReplyRoundTrip(r: AcctReply, extra: seq<byte>)
    ensures ReadAcctReply(AcctLayout(r) + extra) == Some(r) <==> Fits16(r.serverMsg) && Fits16(r.data)
  {
    if Fits16(r.serverMsg) && Fits16(r.data) {
      ContinueOfWritten(AuthenContinue(r.serverMsg, r.data, r.status), AcctLayout(r) + extra);
    }
  }

  method AcctReplyBytes(r: AcctReply) returns (out: seq<byte>)
    ensures out == AcctLayout(r)
  {
    var buf := new byte[5 + |r.serverMsg| + |r.data|](_ => 0);
    Copy(buf, 0, Put16(|r.serverMsg|));
    Copy(buf, 2, Put16(|r.data|));
    buf[4] := r.status;
    assert buf[..5] == Put16(|r.serverMsg|) + Put16(|r.data|) + [r.status];
    Copy(buf, 5, r.serverMsg);
    assert buf[..5 + |r.serverMsg|] == Put16(|r.serverMsg|) + Put16(|r.data|) + [r.status] + r.serverMsg;
    Copy(buf, 5 + |r.serverMsg|, r.data);
    out := buf[..];
  }

  // ---------------------------------------------------------------- section 6.2: authorization REPLY

  datatype AuthorReply = AuthorReply(status: byte, args: seq<seq<byte>>, serverMsg: seq<byte>, data: seq<byte>)

  function AuthorHead(r: AuthorReply): (h: seq<byte>)
    ensures |h| == 6
  {
    [r.status, |r.args| % 256] + Put16(|r.serverMsg|) + Put16(|r.data|)
  }

  function AuthorLayout(r: AuthorReply): seq<byte> {
    AuthorHead(r) + Lens(r.args) + r.serverMsg + r.data + Flat(r.args)
  }

  function ReadAuthorReply(body: seq<byte>): Option<AuthorReply> {
    if |body| < 6 || |body| < 6 + Len(body, 1) + Get16(body[2..4]) + Get16(body[4..6]) then None
    else
      var m := 6 + Len(body, 1);
      var d := m + Get16(body[2..4]);
      var x := d + Get16(body[4..6]);
      var args := TakeArgs(body, x, body[6..m]);
      if args.None? then None else Some(AuthorReply(body[0], args.value, body[m..d], body[d..x]))
  }

  ghost predicate AuthorFits(r: AuthorReply) {
    FitArgs(r.args) && Fits16(r.serverMsg) && Fits16(r.data)
  }

  lemma ReadFitsAuthor(body: seq<byte>)
    requires ReadAuthorReply(body).Some?
    ensures AuthorFits(ReadAuthorReply(body).value)
  {
    var m := 6 + Len(body, 1);
    var x := m + Get16(body[2..4]) + Get16(body[4..6]);
    TakenIsFlat(body, x, body[6..m]);
    assert |ReadAuthorReply(body).value.args| == |body[6..m]|;
  }

  /** The counted parts of a reply that fits, found at their offsets. */
  lemma AuthorParts(r: AuthorReply, body: seq<byte>)
    requires AuthorFits(r) && AuthorLayout(r) <= body
    ensures var m := 6 + |r.args|;
            var d, x := m + |r.serverMsg|, m + |r.serverMsg| + |r.data|;
            && x + |Flat(r.args)| <= |body| && body[..6] == AuthorHead(r)
            && body[6..m] == Lens(r.args) && body[m..d] == r.serverMsg && body[d..x] == r.data
            && body[x..x + |Flat(r.args)|] == Flat(r.args)
  {
    var h := AuthorHead(r);
    var pre := h + Lens(r.args) + r.serverMsg + r.data;
    PrefixTwo(pre, Flat(r.args), body);
    assert h + Lens(r.args) + r.serverMsg + r.data + [] == pre;
    FiveParts(body, h, Lens(r.args), r.serverMsg, r.data, []);
  }

  lemma AuthorReadsBack(r: AuthorReply, body: seq<byte>)
    requires AuthorFits(r) && AuthorLayout(r) <= body
    ensures ReadAuthorReply(body) == Some(r)
  {
    AuthorParts(r, body);
    Fixed(body, r.status, |r.args|, |r.serverMsg|, |r.data|);
    TakeFlat(body, 6 + |r.args| + |r.serverMsg| + |r.data|, r.args);
  }

  lemma AuthorReplyRoundTrip(r: AuthorReply, extra: seq<byte>)
    ensures ReadAuthorReply(AuthorLayout(r) + extra) == Some(r) <==> AuthorFits(r)
  {
    var body := AuthorLayout(r) + extra;
    if AuthorFits(r) {
      AuthorReadsBack(r, body);
    } else if ReadAuthorReply(body) == Some(r) {
      ReadFitsAuthor(body);
    }
  }

  lemma {:induction false} FlatConcat(a: seq<seq<byte>>, b: seq<seq<byte>>)
    ensures Flat(a + b) == Flat(a) + Flat(b)
  {
    if a == [] {
      assert a + b == b;
    } else {
      assert (a + b)[1..] == a[1..] + b;
      FlatConcat(a[1..], b);
    }
  }

  lemma FlatTake(args: seq<seq<byte>>, i: nat)
    requires i < |args|
    ensures Flat(args[..i + 1]) == Flat(args[..i]) + args[i]
  {
    assert args[..i + 1] == args[..i] + [args[i]];
    var last: seq<seq<byte>> := [args[i]];
    assert last[1..] == [];
    FlatConcat(args[..i], [args[i]]);
  }

  lemma FlatSplit(args: seq<seq<byte>>, i: nat)
    requires i <= |args|
    ensures |Flat(args[..i])| <= |Flat(args)|
  {
    assert args == args[..i] + args[i..];
    FlatConcat(args[..i], args[i..]);
  }

  method TotalArgs(args: seq<seq<byte>>) returns (total: nat)
    ensures total == |Flat(args)|
  {
    total := 0;
    for i := 0 to |args|
      invariant total == |Flat(args[..i])|
    {
      FlatTake(args, i);
      total := total + |args[i]|;
    }
    assert args[..|args|] == args;
  }

  method PutLens(buf: array<byte>, off: nat, args: seq<seq<byte>>)
    requires off + |args| <= buf.Length
    modifies buf
    ensures buf[..off + |args|] == old(buf[..off]) + Lens(args)
  {
    for i := 0 to |args|
      invariant buf[..off] == old(buf[..off])
      invariant forall k | 0 <= k < i :: buf[off + k] == |args[k]| % 256
    {
      buf[off + i] := |args[i]| % 256;
    }
    assert buf[off..off + |args|] == Lens(args);
    assert buf[..off + |args|] == buf[..off] + buf[off..off + |args|];
  }

  method PutArgs(buf: array<byte>, start: nat, args: seq<seq<byte>>)
    requires start + |Flat(args)| == buf.Length
    modifies buf
    ensures buf[..] == old(buf[..start]) + Flat(args)
  {
    var off := start;
    ghost var pre := buf[..start];
    for i := 0 to |args|
      invariant off == start + |Flat(args[..i])| <= buf.Length
      invariant buf[..off] == pre + Flat(args[..i])
    {
      FlatTake(args, i);
      FlatSplit(args, i + 1);
      Copy(buf, off, args[i]);
      assert buf[..off + |args[i]|] == buf[..off] + args[i];
      off := off + |args[i]|;
    }
    assert args[..|args|] == args && buf[..off] == buf[..];
  }

  method AuthorReplyBytes(r: AuthorReply) returns (out: seq<byte>)
    ensures out == AuthorLayout(r)
  {
    var totalArgs := TotalArgs(r.args);
    var buf := new byte[6 + |r.args| + totalArgs + |r.serverMsg| + |r.data|](_ => 0);
    buf[0] := r.status;
    buf[1] := |r.args| % 256;
    Copy(buf, 2, Put16(|r.serverMsg|));
    Copy(buf, 4, Put16(|r.data|));
    assert buf[..6] == AuthorHead(r);
    var off := 6;
    PutLens(buf, off, r.args);
    off := off + |r.args|;
    ghost var front := buf[..off];
    Copy(buf, off, r.serverMsg);
    assert buf[..off + |r.serverMsg|] == front + r.serverMsg;
    off := off + |r.serverMsg|;
    Copy(buf, off, r.data);
    assert buf[..off + |r.data|] == front + r.serverMsg + r.data;
    off := off + |r.data|;
    PutArgs(buf, off, r.args);
    out := buf[..];
  }
}
