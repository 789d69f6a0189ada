/**
 The bodies inside TACACS+ packets.  For the three bodies the server receives, a writer is given from the
 layout in RFC 8907 and the parser is specified by it alone: it accepts a buffer exactly when the buffer starts
 with some written body, and returns that body.  For the replies the server sends, a reader is given from
 the layout, and Bytes is proved to produce what the reader undoes.
 */
module TacacsBodies {
  import opened Option
  import opened Bytes

  predicate Fits8(s: seq<byte>) {
    |s| <= 255
  }

  predicate Fits16(s: seq<byte>) {
    |s| <= MAX16
  }

  // ---------------------------------------------------------------- section 5.1: authentication START

  datatype AuthenStart = AuthenStart(action: byte, privLvl: byte, authenType: byte, service: byte,
                                     user: seq<byte>, port: seq<byte>, remAddr: seq<byte>, data: seq<byte>)
  {
    predicate Fits() {
      Fits8(user) && Fits8(port) && Fits8(remAddr) && Fits8(data)
    }

    function Written(): seq<byte>
      requires Fits()
    {
      [action, privLvl, authenType, service, |user|, |port|, |remAddr|, |data|] + user + port + remAddr + data
    }
  }

  /** A length byte as a number. */
  function Len(body: seq<byte>, i: nat): nat
    requires i < |body|
  {
    body[i]
  }

  /** The fields at the offsets the length bytes add up to; None when the body is too short for them. */
  function StartOf(body: seq<byte>): Option<AuthenStart> {
    if |body| < 8 || |body| < 8 + Len(body, 4) + Len(body, 5) + Len(body, 6) + Len(body, 7) then None
    else
      var p, m, d := 8 + Len(body, 4), 8 + Len(body, 4) + Len(body, 5), 8 + Len(body, 4) + Len(body, 5) + Len(body, 6);
      Some(AuthenStart(body[0], body[1], body[2], body[3], body[8..p], body[p..m], body[m..d], body[d..d + Len(body, 7)]))
  }

  lemma TwoSlices(s: seq<byte>, i: nat, j: nat, k: nat)
    requires i <= j <= k <= |s|
    ensures s[i..k] == s[i..j] + s[j..k]
  {
  }

  /** Consecutive slices put a buffer's prefix back together. */
  lemma FiveSlices(s: seq<byte>, a: nat, b: nat, c: nat, d: nat, e: nat)
    requires a <= b <= c <= d <= e <= |s|
    ensures s[..a] + s[a..b] + s[b..c] + s[c..d] + s[d..e] == s[..e]
  {
    TwoSlices(s, 0, a, b);
    TwoSlices(s, 0, b, c);
    TwoSlices(s, 0, c, d);
    TwoSlices(s, 0, d, e);
    assert s[..a] == s[0..a] && s[..e] == s[0..e];
  }

  lemma FiveParts(s: seq<byte>, h: seq<byte>, a: seq<byte>, b: seq<byte>, c: seq<byte>, d: seq<byte>)
    requires h + a + b + c + d <= s
    ensures var i, j, k, l := |h| + |a|, |h| + |a| + |b|, |h| + |a| + |b| + |c|, |h| + |a| + |b| + |c| + |d|;
            l <= |s| && s[..|h|] == h && s[|h|..i] == a && s[i..j] == b && s[j..k] == c && s[k..l] == d
  {
    assert s[..|h| + |a| + |b| + |c| + |d|] == h + a + b + c + d;
  }

  lemma StartOfWritten(a: AuthenStart, body: seq<byte>)
    requires a.Fits() && a.Written() <= body
    ensures StartOf(body) == Some(a)
  {
    var h := [a.action, a.privLvl, a.authenType, a.service, |a.user|, |a.port|, |a.remAddr|, |a.data|];
    FiveParts(body, h, a.user, a.port, a.remAddr, a.data);
    assert forall i | 0 <= i < 8 :: body[i] == body[..8][i];
  }

  lemma FirstEight(body: seq<byte>)
    requires |body| >= 8
    ensures body[..8] == [body[0], body[1], body[2], body[3], body[4], body[5], body[6], body[7]]
  {
  }

  /** A START cut out of a buffer at these offsets is written there. */
  lemma StartSlices(body: seq<byte>, p: nat, m: nat, d: nat, e: nat, a: AuthenStart)
    requires 8 <= p <= m <= d <= e <= |body|
    requires a.user == body[8..p] && a.port == body[p..m] && a.remAddr == body[m..d] && a.data == body[d..e] && a.Fits()
    requires body[..8] == [a.action, a.privLvl, a.authenType, a.service, |a.user|, |a.port|, |a.remAddr|, |a.data|]
    ensures a.Written() <= body
  {
    FiveSlices(body, 8, p, m, d, e);
  }

  lemma WrittenStart(body: seq<byte>)
    requires StartOf(body).Some?
    ensures StartOf(body).value.Fits() && StartOf(body).value.Written() <= body
  {
    var p, m, d := 8 + Len(body, 4), 8 + Len(body, 4) + Len(body, 5), 8 + Len(body, 4) + Len(body, 5) + Len(body, 6);
    FirstEight(body);
    StartSlices(body, p, m, d, d + Len(body, 7), StartOf(body).value);
  }

  lemma StartIsInverse(body: seq<byte>)
    ensures StartOf(body).Some? ==> StartOf(body).value.Fits() && StartOf(body).value.Written() <= body
    ensures forall a: AuthenStart | a.Fits() && a.Written() <= body :: StartOf(body) == Some(a)
  {
    forall a: AuthenStart | a.Fits() && a.Written() <= body
      ensures StartOf(body) == Some(a)
    {
      StartOfWritten(a, body);
    }
    if StartOf(body).Some? {
      WrittenStart(body);
    }
  }

  /** Accepts exactly the buffers that begin with a written START, and returns that START. */
  method ParseAuthenStart(body: seq<byte>) returns (r: Option<AuthenStart>)
    ensures r == StartOf(body)
    ensures r.Some? ==> r.value.Fits() && r.value.Written() <= body
    ensures forall a: AuthenStart | a.Fits() && a.Written() <= body :: r == Some(a)
  {
    r := SliceStart(body);
    StartIsInverse(body);
  }

  /** The offsets, step by step. */
  method SliceStart(body: seq<byte>) returns (r: Option<AuthenStart>)
    ensures r == StartOf(body)
  {
    if |body| < 8 {
      return None;
    }
    var userLen: nat, portLen: nat, remLen: nat, dataLen: nat := body[4], body[5], body[6], body[7];
    var off := 8;
    if |body| < off + userLen + portLen + remLen + dataLen {
      return None;
    }
    var user := body[off..off + userLen];
    off := off + userLen;
    var port := body[off..off + portLen];
    off := off + portLen;
    var rem := body[off..off + remLen];
    off := off + remLen;
    var data := body[off..off + dataLen];
    r := Some(AuthenStart(body[0], body[1], body[2], body[3], user, port, rem, data));
  }

  // ---------------------------------------------------------------- section 5.3: authentication CONTINUE

  datatype AuthenContinue = AuthenContinue(userMsg: seq<byte>, data: seq<byte>, flags: byte)
  {
    predicate Fits() {
      Fits16(userMsg) && Fits16(data)
    }

    function Written(): seq<byte>
      requires Fits()
    {
      (Put16(|userMsg|) + Put16(|data|) + [flags]) + userMsg + data
    }
  }

  function ContinueOf(body: seq<byte>): Option<AuthenContinue> {
    if |body| < 5 || |body| < 5 + Get16(body[0..2]) + Get16(body[2..4]) then None
    else
      var d := 5 + Get16(body[0..2]);
      Some(AuthenContinue(body[5..d], body[d..d + Get16(body[2..4])], body[4]))
  }

  lemma ContinueOfWritten(a: AuthenContinue, body: seq<byte>)
    requires a.Fits() && a.Written() <= body
    ensures ContinueOf(body) == Some(a)
  {
    var h := Put16(|a.userMsg|) + Put16(|a.data|) + [a.flags];
    assert h + a.userMsg + a.data + [] + [] == a.Written();
    FiveParts(body, h, a.userMsg, a.data, [], []);
    assert body[0..2] == body[..5][0..2] == Put16(|a.userMsg|);
    assert body[2..4] == body[..5][2..4] == Put16(|a.data|);
    assert body[4] == body[..5][4];
    Get16Put16(|a.userMsg|);
    Get16Put16(|a.data|);
  }

  lemma WrittenContinue(body: seq<byte>)
    requires ContinueOf(body).Some?
    ensures ContinueOf(body).value.Fits() && ContinueOf(body).value.Written() <= body
  {
    var d := 5 + Get16(body[0..2]);
    var e := d + Get16(body[2..4]);
    Put16Get16(body[0..2]);
    Put16Get16(body[2..4]);
    FiveSlices(body, 5, d, e, e, e);
    assert body[..5] == body[0..2] + body[2..4] + [body[4]];
  }

  method ParseAuthenContinue(body: seq<byte>) returns (r: Option<AuthenContinue>)
    ensures r.Some? ==> r.value.Fits() && r.value.Written() <= body
    ensures forall a: AuthenContinue | a.Fits() && a.Written() <= body :: r == Some(a)
  {
    forall a: AuthenContinue | a.Fits() && a.Written() <= body
      ensures ContinueOf(body) == Some(a)
    {
      ContinueOfWritten(a, body);
    }
    if ContinueOf(body).Some? {
      WrittenContinue(body);
    }
    if |body| < 5 {
      return None;
    }
    var msgLen := Get16(body[0..2]);
    var dataLen := Get16(body[2..4]);
    var flags := body[4];
    var off := 5;
    if |body| < off + msgLen + dataLen {
      return None;
    }
    r := Some(AuthenContinue(body[off..off + msgLen], body[off + msgLen..off + msgLen + dataLen], flags));
  }

  // ---------------------------------------------------------------- argument lists

  ghost predicate FitArgs(args: seq<seq<byte>>) {
    |args| <= 255 && forall i | 0 <= i < |args| :: Fits8(args[i])
  }

  /** One length byte per argument, wrapping as uint8 does. */
  function Lens(args: seq<seq<byte>>): (l: seq<byte>)
    ensures |l| == |args|
    ensures forall i | 0 <= i < |args| :: l[i] == |args[i]| % 256
  {
    seq(|args|, i requires 0 <= i < |args| => |args[i]| % 256)
  }

  function Flat(args: seq<seq<byte>>): seq<byte> {
    if args == [] then [] else args[0] + Flat(args[1..])
  }

  /** One slice per length byte, starting at `off`; None when the buffer ends too soon. */
  function TakeArgs(body: seq<byte>, off: nat, lens: seq<byte>): Option<seq<seq<byte>>>
    requires off <= |body|
    decreases |lens|
  {
    if lens == [] then Some([])
    else if |body| < off + Len(lens, 0) then None
    else
      var rest := TakeArgs(body, off + Len(lens, 0), lens[1..]);
      if rest.None? then None else Some([body[off..off + Len(lens, 0)]] + rest.value)
  }

  lemma {:induction false} TakeFlat(body: seq<byte>, off: nat, args: seq<seq<byte>>)
    requires FitArgs(args) && off + |Flat(args)| <= |body| && body[off..off + |Flat(args)|] == Flat(args)
    ensures TakeArgs(body, off, Lens(args)) == Some(args)
    decreases |args|
  {
    if args != [] {
      var a, rest := args[0], args[1..];
      assert Lens(args)[1..] == Lens(rest);
      assert body[off..off + |a|] == body[off..off + |Flat(args)|][..|a|] == a;
      assert body[off + |a|..off + |a| + |Flat(rest)|] == body[off..off + |Flat(args)|][|a|..] == Flat(rest);
      TakeFlat(body, off + |a|, rest);
      assert args == [a] + rest;
    }
  }

  lemma LensCons(a: seq<byte>, rest: seq<seq<byte>>)
    ensures Lens([a] + rest) == [|a| % 256] + Lens(rest)
  {
  }

  lemma FlatCons(a: seq<byte>, rest: seq<seq<byte>>)
    ensures Flat([a] + rest) == a + Flat(rest)
  {
    assert ([a] + rest)[1..] == rest;
  }

  lemma HeadAndTail(lens: seq<byte>)
    requires lens != []
    ensures lens == [lens[0]] + lens[1..]
  {
  }

  /** These arguments have these length bytes and stand in the buffer one after the other. */
  ghost predicate StandAt(body: seq<byte>, off: nat, lens: seq<byte>, args: seq<seq<byte>>) {
    && Lens(args) == lens && (forall i | 0 <= i < |args| :: Fits8(args[i]))
    && off + |Flat(args)| <= |body| && body[off..off + |Flat(args)|] == Flat(args)
  }

  lemma OneMoreStands(body: seq<byte>, off: nat, lens: seq<byte>, rest: seq<seq<byte>>)
    requires lens != [] && off + Len(lens, 0) <= |body| && StandAt(body, off + Len(lens, 0), lens[1..], rest)
    ensures StandAt(body, off, lens, [body[off..off + Len(lens, 0)]] + rest)
  {
    var n := Len(lens, 0);
    var a := body[off..off + n];
    LensCons(a, rest);
    FlatCons(a, rest);
    HeadAndTail(lens);
    TwoSlices(body, off, off + n, off + n + |Flat(rest)|);
  }

  lemma NoneStand(body: seq<byte>, off: nat)
    requires off <= |body|
    ensures StandAt(body, off, [], [])
  {
  }

  lemma {:induction false} TakenStand(body: seq<byte>, off: nat, lens: seq<byte>)
    requires off <= |body| && TakeArgs(body, off, lens).Some?
    ensures StandAt(body, off, lens, TakeArgs(body, off, lens).value)
    decreases |lens|
  {
    if lens == [] {
      NoneStand(body, off);
    } else {
      TakenStand(body, off + Len(lens, 0), lens[1..]);
      OneMoreStands(body, off, lens, TakeArgs(body, off + Len(lens, 0), lens[1..]).value);
    }
  }

  lemma TakenIsFlat(body: seq<byte>, off: nat, lens: seq<byte>)
    requires off <= |body| && TakeArgs(body, off, lens).Some?
    ensures var args := TakeArgs(body, off, lens).value;
            && Lens(args) == lens && (forall i | 0 <= i < |args| :: Fits8(args[i]))
            && off + |Flat(args)| <= |body| && body[off..off + |Flat(args)|] == Flat(args)
  {
    TakenStand(body, off, lens);
  }

  method ReadArgs(body: seq<byte>, start: nat, lens: seq<byte>) returns (args: Option<seq<seq<byte>>>)
    requires start <= |body|
    ensures args == TakeArgs(body, start, lens)
  {
    var out: seq<seq<byte>> := [];
    var off: nat := start;
    assert out + (if TakeArgs(body, off, lens).Some? then TakeArgs(body, off, lens).value else []) ==
           (if TakeArgs(body, off, lens).Some? then TakeArgs(body, off, lens).value else []);
    assert lens[0..] == lens;
    for i := 0 to |lens|
      invariant off <= |body|
      invariant var rest := TakeArgs(body, off, lens[i..]);
                TakeArgs(body, start, lens) == if rest.None? then None else Some(out + rest.value)
    {
      var n: nat := lens[i];
      assert lens[i..][1..] == lens[i + 1..];
      if |body| < off + n {
        return None;
      }
      ghost var rest := TakeArgs(body, off + n, lens[i + 1..]);
      assert rest.Some? ==> out + ([body[off..off + n]] + rest.value) == (out + [body[off..off + n]]) + rest.value;
      out := out + [body[off..off + n]];
      off := off + n;
    }
    assert out + [] == out;
    args := Some(out);
  }

  // ---------------------------------------------------------------- sections 6.1 and 7.1: the two REQUESTs

  /** What the two requests share: the counted user, port, remote address and arguments. */
  datatype Subject = Subject(user: seq<byte>, port: seq<byte>, remAddr: seq<byte>, args: seq<seq<byte>>)
  {
    ghost predicate Fits() {
      Fits8(user) && Fits8(port) && Fits8(remAddr) && FitArgs(args)
    }

    /** Four counts, the argument lengths, then the texts. */
    function Written(head: seq<byte>): seq<byte>
      requires Fits8(user) && Fits8(port) && Fits8(remAddr) && |args| <= 255
    {
      (head + [|user|, |port|, |remAddr|, |args|]) + Lens(args) + user + port + remAddr + Flat(args)
    }
  }

  /** The texts from u on, and the arguments behind them. */
  function TextsAt(body: seq<byte>, u: nat, uLen: nat, pLen: nat, rLen: nat, lens: seq<byte>): Option<Subject> {
    if |body| < u + uLen + pLen + rLen then None
    else
      var p, m, x := u + uLen, u + uLen + pLen, u + uLen + pLen + rLen;
      var args := TakeArgs(body, x, lens);
      if args.None? then None else Some(Subject(body[u..p], body[p..m], body[m..x], args.value))
  }

  /** The subject after a head of n bytes. */
  function SubjectOf(body: seq<byte>, n: nat): Option<Subject> {
    if |body| < n + 4 || |body| < n + 4 + Len(body, n + 3) then None
    else
      var u := n + 4 + Len(body, n + 3);
      TextsAt(body, u, Len(body, n), Len(body, n + 1), Len(body, n + 2), body[n + 4..u])
  }

  /** Every part of a written subject, found at its offset. */
  lemma SubjectParts(s: Subject, head: seq<byte>, body: seq<byte>)
    requires s.Fits() && s.Written(head) <= body
    ensures var n := |head|;
            var u := n + 4 + |s.args|;
            var p, m, x := u + |s.user|, u + |s.user| + |s.port|, u + |s.user| + |s.port| + |s.remAddr|;
            && x + |Flat(s.args)| <= |body|
            && body[..n + 4] == head + [|s.user|, |s.port|, |s.remAddr|, |s.args|]
            && body[n + 4..u] == Lens(s.args) && body[u..p] == s.user && body[p..m] == s.port && body[m..x] == s.remAddr
            && body[x..x + |Flat(s.args)|] == Flat(s.args)
  {
    var h := head + [|s.user|, |s.port|, |s.remAddr|, |s.args|];
    var texts := h + Lens(s.args) + s.user + s.port + s.remAddr;
    PrefixTwo(texts, Flat(s.args), body);
    FiveParts(body, h, Lens(s.args), s.user, s.port, s.remAddr);
  }

  lemma PrefixTwo(a: seq<byte>, b: seq<byte>, s: seq<byte>)
    requires a + b <= s
    ensures a <= s && |a| + |b| <= |s| && s[|a|..|a| + |b|] == b
  {
    assert s[..|a| + |b|] == a + b;
    assert a == (a + b)[..|a|];
    assert b == (a + b)[|a|..];
  }

  lemma SubjectCounts(s: Subject, head: seq<byte>, body: seq<byte>)
    requires s.Fits() && |head| + 4 <= |body|
    requires body[..|head| + 4] == head + [|s.user|, |s.port|, |s.remAddr|, |s.args|]
    ensures var n := |head|;
            && head <= body
            && Len(body, n) == |s.user| && Len(body, n + 1) == |s.port| && Len(body, n + 2) == |s.remAddr| && Len(body, n + 3) == |s.args|
  {
    var n := |head|;
    var h := body[..n + 4];
    assert body[n] == h[n] && body[n + 1] == h[n + 1] && body[n + 2] == h[n + 2] && body[n + 3] == h[n + 3];
    assert head == h[..n] == body[..n];
  }

  lemma SubjectOfWritten(s: Subject, head: seq<byte>, body: seq<byte>)
    requires s.Fits() && s.Written(head) <= body
    ensures SubjectOf(body, |head|) == Some(s) && head <= body
  {
    SubjectParts(s, head, body);
    SubjectCounts(s, head, body);
    var x := |head| + 4 + |s.args| + |s.user| + |s.port| + |s.remAddr|;
    TakeFlat(body, x, s.args);
  }

  lemma WrittenSubject(body: seq<byte>, n: nat)
    requires SubjectOf(body, n).Some?
    ensures n <= |body| && SubjectOf(body, n).value.Fits() && SubjectOf(body, n).value.Written(body[..n]) <= body
  {
    var u := n + 4 + Len(body, n + 3);
    var p, m, x := u + Len(body, n), u + Len(body, n) + Len(body, n + 1), u + Len(body, n) + Len(body, n + 1) + Len(body, n + 2);
    WrittenSlices(body, n, u, p, m, x, SubjectOf(body, n).value);
  }

  /** A subject cut out of a buffer at these offsets is written there. */
  lemma WrittenSlices(body: seq<byte>, n: nat, u: nat, p: nat, m: nat, x: nat, s: Subject)
    requires n + 4 <= u <= p <= m <= x <= |body|
    requires u - (n + 4) == Len(body, n + 3) && p - u == Len(body, n) && m - p == Len(body, n + 1) && x - m == Len(body, n + 2)
    requires TakeArgs(body, x, body[n + 4..u]) == Some(s.args)
    requires s.user == body[u..p] && s.port == body[p..m] && s.remAddr == body[m..x]
    ensures s.Fits() && s.Written(body[..n]) <= body
  {
    TakenIsFlat(body, x, body[n + 4..u]);
    assert |s.args| == |Lens(s.args)| == u - (n + 4);
    SlicesAreWritten(body, n, u, p, m, x, s);
  }

  lemma SlicesAreWritten(body: seq<byte>, n: nat, u: nat, p: nat, m: nat, x: nat, s: Subject)
    requires n + 4 <= u <= p <= m <= x <= x + |Flat(s.args)| <= |body| && s.Fits()
    requires |s.args| == Len(body, n + 3) && |s.user| == Len(body, n) && |s.port| == Len(body, n + 1) && |s.remAddr| == Len(body, n + 2)
    requires Lens(s.args) == body[n + 4..u] && s.user == body[u..p] && s.port == body[p..m] && s.remAddr == body[m..x]
    requires Flat(s.args) == body[x..x + |Flat(s.args)|]
    ensures s.Written(body[..n]) <= body
  {
    FourMore(body, n);
    WrittenIs(s, body[..n], body[..n + 4]);
    Rejoin(body, n + 4, u, p, m, x, |Flat(s.args)|);
  }

  lemma WrittenIs(s: Subject, head: seq<byte>, h: seq<byte>)
    requires s.Fits() && h == head + [|s.user|, |s.port|, |s.remAddr|, |s.args|]
    ensures s.Written(head) == h + Lens(s.args) + s.user + s.port + s.remAddr + Flat(s.args)
  {
  }

  lemma FourMore(body: seq<byte>, n: nat)
    requires n + 4 <= |body|
    ensures body[..n + 4] == body[..n] + [body[n], body[n + 1], body[n + 2], body[n + 3]]
  {
  }

  lemma Rejoin(body: seq<byte>, h: nat, u: nat, p: nat, m: nat, x: nat, k: nat)
    requires h <= u <= p <= m <= x <= x + k <= |body|
    ensures body[..h] + body[h..u] + body[u..p] + body[p..m] + body[m..x] + body[x..x + k] <= body
  {
    FiveSlices(body, h, u, p, m, x);
    assert body[..x] + body[x..x + k] == body[..x + k];
  }

  datatype AuthorRequest = AuthorRequest(authenMethod: byte, privLvl: byte, authenType: byte, authenService: byte, subject: Subject)
  {
    ghost predicate Fits() {
      subject.Fits()
    }

    ghost function Written(): seq<byte>
      requires Fits()
    {
      subject.Written([authenMethod, privLvl, authenType, authenService])
    }
  }

  function AuthorOf(body: seq<byte>): Option<AuthorRequest> {
    var s := SubjectOf(body, 4);
    if s.None? then None else Some(AuthorRequest(body[0], body[1], body[2], body[3], s.value))
  }

  lemma AuthorIsInverse(body: seq<byte>)
    ensures AuthorOf(body).Some? ==> AuthorOf(body).value.Fits() && AuthorOf(body).value.Written() <= body
    ensures forall a: AuthorRequest | a.Fits() && a.Written() <= body :: AuthorOf(body) == Some(a)
  {
    forall a: AuthorRequest | a.Fits() && a.Written() <= body
      ensures AuthorOf(body) == Some(a)
    {
      SubjectOfWritten(a.subject, [a.authenMethod, a.privLvl, a.authenType, a.authenService], body);
    }
    if AuthorOf(body).Some? {
      WrittenSubject(body, 4);
      assert body[..4] == [body[0], body[1], body[2], body[3]];
    }
  }

  /** Accepts exactly the buffers that begin with a written request, and returns that request. */
  method ParseAuthorRequest(body: seq<byte>) returns (r: Option<AuthorRequest>)
    ensures r == AuthorOf(body)
    ensures r.Some? ==> r.value.Fits() && r.value.Written() <= body
    ensures forall a: AuthorRequest | a.Fits() && a.Written() <= body :: r == Some(a)
  {
    r := SliceAuthor(body);
    AuthorIsInverse(body);
  }

  method SliceAuthor(body: seq<byte>) returns (r: Option<AuthorRequest>)
    ensures r == AuthorOf(body)
  {
    if |body| < 8 {
      return None;
    }
    var subject := SliceSubject(body, 4);
    if subject.None? {
      return None;
    }
    r := Some(AuthorRequest(body[0], body[1], body[2], body[3], subject.value));
  }

  method SliceSubject(body: seq<byte>, n: nat) returns (r: Option<Subject>)
    requires |body| >= n + 4
    ensures r == SubjectOf(body, n)
  {
    var uLen: nat, pLen: nat, rLen: nat, argCnt: nat := body[n], body[n + 1], body[n + 2], body[n + 3];
    var off := n + 4;
    if |body| < off + argCnt {
      return None;
    }
    var lens := body[off..off + argCnt];
    off := off + argCnt;
    r := SliceTexts(body, off, uLen, pLen, rLen, lens);
  }

  method SliceTexts(body: seq<byte>, start: nat, uLen: nat, pLen: nat, rLen: nat, lens: seq<byte>) returns (r: Option<Subject>)
    ensures r == TextsAt(body, start, uLen, pLen, rLen, lens)
  {
    var off := start;
    if |body| < off + uLen + pLen + rLen {
      return None;
    }
    var user := body[off..off + uLen];
    off := off + uLen;
    var port := body[off..off + pLen];
    off := off + pLen;
    var rem := body[off..off + rLen];
    off := off + rLen;
    var args := ReadArgs(body, off, lens);
    if args.None? {
      return None;
    }
    r := Some(Subject(user, port, rem, args.value));
  }

  datatype AcctRequest = AcctRequest(flags: byte, authenMethod: byte, privLvl: byte, authenType: byte, authenService: byte,
                                     subject: Subject)
  {
    ghost predicate Fits() {
      subject.Fits()
    }

    ghost function Written(): seq<byte>
      requires Fits()
    {
      subject.Written([flags, authenMethod, privLvl, authenType, authenService])
    }
  }

  function AcctOf(body: seq<byte>): Option<AcctRequest> {
    var s := SubjectOf(body, 5);
    if s.None? then None else Some(AcctRequest(body[0], body[1], body[2], body[3], body[4], s.value))
  }

  lemma AcctIsInverse(body: seq<byte>)
    ensures AcctOf(body).Some? ==> AcctOf(body).value.Fits() && AcctOf(body).value.Written() <= body
    ensures forall a: AcctRequest | a.Fits() && a.Written() <= body :: AcctOf(body) == Some(a)
  {
    forall a: AcctRequest | a.Fits() && a.Written() <= body
      ensures AcctOf(body) == Some(a)
    {
      SubjectOfWritten(a.subject, [a.flags, a.authenMethod, a.privLvl, a.authenType, a.authenService], body);
    }
    if AcctOf(body).Some? {
      WrittenSubject(body, 5);
      assert body[..5] == [body[0], body[1], body[2], body[3], body[4]];
    }
  }

  /** The accounting parser checks only for its nine fixed bytes; lengths that do not fit index past the body. */
  datatype AcctResult = TooShort | OutOfRange | Parsed(request: AcctRequest)

  function AcctOutcome(body: seq<byte>): AcctResult {
    if |body| < 9 then TooShort else if AcctOf(body).None? then OutOfRange else Parsed(AcctOf(body).value)
  }

  /** Of the bodies that are not too short, returns a request exactly for those that begin with a written one, and
      returns that one. */
  method ParseAcctRequest(body: seq<byte>) returns (r: AcctResult)
    ensures r == AcctOutcome(body)
    ensures r.TooShort? <==> |body| < 9
    ensures r.Parsed? ==> r.request.Fits() && r.request.Written() <= body
    ensures forall a: AcctRequest | a.Fits() && a.Written() <= body :: r == Parsed(a)
  {
    r := SliceAcct(body);
    AcctIsInverse(body);
    AcctIsLongEnough(body);
  }

  lemma AcctIsLongEnough(body: seq<byte>)
    ensures AcctOf(body).Some? ==> |body| >= 9
  {
  }

  method SliceAcct(body: seq<byte>) returns (r: AcctResult)
    ensures r == AcctOutcome(body)
  {
    if |body| < 9 {
      return TooShort;
    }
    var subject := SliceSubject(body, 5);
    if subject.None? {
      return OutOfRange;
    }
    r := Parsed(AcctRequest(body[0], body[1], body[2], body[3], body[4], subject.value));
  }
}
