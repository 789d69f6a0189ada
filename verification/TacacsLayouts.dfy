/** The messages of RFC 8907 as bytes, each count written out with its high byte first. */
module TacacsLayouts {
  import opened Bytes
  import opened TacacsBodies
  import opened TacacsReplies

  /** Section 5.1. */
  lemma StartBytes(a: AuthenStart)
    ensures a.Fits() <==> |a.user| <= 255 && |a.port| <= 255 && |a.remAddr| <= 255 && |a.data| <= 255
    ensures a.Fits() ==>
              a.Written() == [a.action, a.privLvl, a.authenType, a.service, |a.user|, |a.port|, |a.remAddr|, |a.data|]
                             + a.user + a.port + a.remAddr + a.data
  {
  }

  /** Section 5.3. */
  lemma ContinueBytes(a: AuthenContinue)
    ensures a.Fits() <==> |a.userMsg| <= 65535 && |a.data| <= 65535
    ensures a.Fits() ==>
              a.Written() == [|a.userMsg| / 256, |a.userMsg| % 256, |a.data| / 256, |a.data| % 256, a.flags]
                             + a.userMsg + a.data
  {
    if a.Fits() {
      Put16Bytes(|a.userMsg|);
      Put16Bytes(|a.data|);
    }
  }

  /** The arguments: their lengths in one run of bytes, themselves one after the other. */
  lemma ArgBytes(args: seq<seq<byte>>, i: nat)
    requires FitArgs(args) && i < |args|
    ensures |args| <= 255 && |args[i]| <= 255 && |Lens(args)| == |args| && Lens(args)[i] == |args[i]|
    ensures Flat(args) == Flat(args[..i]) + args[i] + Flat(args[i + 1..]) && Flat([]) == []
  {
    FlatAround(args, i);
  }

  lemma {:induction false} FlatAround(args: seq<seq<byte>>, i: nat)
    requires i < |args|
    ensures Flat(args) == Flat(args[..i]) + args[i] + Flat(args[i + 1..])
  {
    var a, rest := args[0], args[1..];
    assert args == [a] + rest;
    FlatCons(a, rest);
    if i > 0 {
      FlatAround(rest, i - 1);
      assert args[..i] == [a] + rest[..i - 1] && args[i + 1..] == rest[i..];
      FlatCons(a, rest[..i - 1]);
    }
  }

  /** Section 6.1. */
  lemma AuthorBytes(a: AuthorRequest)
    requires a.Fits()
    ensures var s := a.subject;
            a.Written() == [a.authenMethod, a.privLvl, a.authenType, a.authenService, |s.user|, |s.port|, |s.remAddr|, |s.args|]
                           + Lens(s.args) + s.user + s.port + s.remAddr + Flat(s.args)
  {
  }

  /** Section 7.1. */
  lemma AcctBytes(a: AcctRequest)
    requires a.Fits()
    ensures var s := a.subject;
            a.Written() == [a.flags, a.authenMethod, a.privLvl, a.authenType, a.authenService,
                            |s.user|, |s.port|, |s.remAddr|, |s.args|]
                           + Lens(s.args) + s.user + s.port + s.remAddr + Flat(s.args)
  {
  }

  /** Sections 5.2, 7.2 and 6.2. */
  lemma ReplyBytes(r: AuthenReply, q: AcctReply, u: AuthorReply)
    ensures |r.serverMsg| <= 65535 && |r.data| <= 65535 ==>
              AuthenLayout(r) == [r.status, r.flags, |r.serverMsg| / 256, |r.serverMsg| % 256, |r.data| / 256, |r.data| % 256]
                                 + r.serverMsg + r.data
    ensures |q.serverMsg| <= 65535 && |q.data| <= 65535 ==>
              AcctLayout(q) == [|q.serverMsg| / 256, |q.serverMsg| % 256, |q.data| / 256, |q.data| % 256, q.status]
                               + q.serverMsg + q.data
    ensures |u.serverMsg| <= 65535 && |u.data| <= 65535 && |u.args| <= 255 ==>
              AuthorLayout(u) == [u.status, |u.args|, |u.serverMsg| / 256, |u.serverMsg| % 256, |u.data| / 256, |u.data| % 256]
                                 + Lens(u.args) + u.serverMsg + u.data + Flat(u.args)
  {
    CountBytes(|r.serverMsg|);
    CountBytes(|r.data|);
    CountBytes(|q.serverMsg|);
    CountBytes(|q.data|);
    CountBytes(|u.serverMsg|);
    CountBytes(|u.data|);
  }

  lemma CountBytes(n: nat)
    ensures n <= 65535 ==> Put16(n) == [n / 256, n % 256]
  {
    if n <= 65535 {
      Put16Bytes(n);
    }
  }
}
