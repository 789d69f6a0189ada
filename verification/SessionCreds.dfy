/** The credential payloads in the vault: fields joined by newlines, and split again at most so many times. */
module SessionCreds {

  // ---------------------------------------------------------------- joining and splitting

  function LineLen(s: string): (n: nat)
    ensures n <= |s| && '\n' !in s[..n] && (n < |s| ==> s[n] == '\n')
  {
    if s == "" || s[0] == '\n' then 0 else 1 + LineLen(s[1..])
  }

  /** strings.SplitN on newlines: n parts at most, the last one unsplit. */
  function SplitN(s: string, n: nat): (parts: seq<string>)
    requires n > 0
    ensures 0 < |parts| <= n
  {
    var k := LineLen(s);
    if n == 1 || k == |s| then [s] else [s[..k]] + SplitN(s[k + 1..], n - 1)
  }

  function JoinLines(fields: seq<string>): string
    requires fields != []
  {
    if |fields| == 1 then fields[0] else fields[0] + "\n" + JoinLines(fields[1..])
  }

  predicate OneLine(fields: seq<string>) {
    forall i | 0 <= i < |fields| - 1 :: '\n' !in fields[i]
  }

  lemma FirstLine(a: string, rest: string)
    ensures LineLen(a + "\n" + rest) <= |a|
    ensures LineLen(a + "\n" + rest) == |a| <==> '\n' !in a
    ensures '\n' !in a ==> (a + "\n" + rest)[..|a|] == a && (a + "\n" + rest)[|a| + 1..] == rest
  {
    var s := a + "\n" + rest;
    var k := LineLen(s);
    assert s[|a|] == '\n';
    forall i | 0 <= i < k ensures s[i] != '\n' {
      assert s[i] in s[..k];
    }
    if k < |a| {
      assert a[k] == '\n';
    } else {
      assert s[..k] == a;
    }
  }

  lemma OneLineMore(a: string, rest: seq<string>)
    requires rest != []
    ensures OneLine([a] + rest) <==> '\n' !in a && OneLine(rest)
  {
    var all := [a] + rest;
    assert all[0] == a && forall i | 0 <= i < |rest| - 1 :: rest[i] == all[i + 1];
  }

  /** The first part of the joined text is the first field, or a beginning of it that a newline cuts off. */
  lemma FirstPart(a: string, rest: seq<string>, n: nat)
    requires rest != [] && n > 1
    ensures var parts := SplitN(JoinLines([a] + rest), n);
            if '\n' in a then parts[0] != a else parts == [a] + SplitN(JoinLines(rest), n - 1)
  {
    FirstLine(a, JoinLines(rest));
    assert ([a] + rest)[1..] == rest;
  }

  /** Splitting into as many parts as were joined gives the fields back, exactly when none but the last holds a newline. */
  lemma {:induction false} SplitJoined(fields: seq<string>)
    requires fields != []
    ensures SplitN(JoinLines(fields), |fields|) == fields <==> OneLine(fields)
    decreases |fields|
  {
    if |fields| > 1 {
      var a, rest := fields[0], fields[1..];
      assert fields == [a] + rest;
      FirstPart(a, rest, |fields|);
      OneLineMore(a, rest);
      SplitJoined(rest);
      SameFirst(a, SplitN(JoinLines(rest), |rest|), rest);
    }
  }

  lemma SameFirst(a: string, p: seq<string>, q: seq<string>)
    ensures [a] + p == [a] + q <==> p == q
  {
    assert ([a] + p)[1..] == p && ([a] + q)[1..] == q;
  }

  /** The first field that is cut shows in its own place, whatever the later ones become. */
  lemma {:induction false} CutField(fields: seq<string>, i: nat)
    requires i < |fields| - 1 && '\n' in fields[i] && forall k | 0 <= k < i :: '\n' !in fields[k]
    ensures i < |SplitN(JoinLines(fields), |fields|)| && SplitN(JoinLines(fields), |fields|)[i] != fields[i]
    decreases |fields|
  {
    var a, rest := fields[0], fields[1..];
    assert fields == [a] + rest;
    FirstPart(a, rest, |fields|);
    if i > 0 {
      CutField(rest, i - 1);
    }
  }

  function Part(parts: seq<string>, i: nat): string {
    if i < |parts| then parts[i] else ""
  }

  lemma {:induction false} FirstCut(fields: seq<string>, n: nat) returns (i: nat)
    requires n < |fields| && '\n' in fields[n]
    ensures i <= n && '\n' in fields[i] && forall k | 0 <= k < i :: '\n' !in fields[k]
  {
    i := 0;
    while '\n' !in fields[i]
      invariant i <= n && forall k | 0 <= k < i :: '\n' !in fields[k]
      decreases n - i
    {
      i := i + 1;
    }
  }

  // ---------------------------------------------------------------- numbers

  function Digits(n: nat): (s: string)
    ensures s != "" && forall i | 0 <= i < |s| :: '0' <= s[i] <= '9'
  {
    if n < 10 then ['0' + n as char] else Digits(n / 10) + ['0' + (n % 10) as char]
  }

  function FormatInt(n: int): string {
    if n < 0 then "-" + Digits(-n) else Digits(n)
  }

  /** The digits a text is made of, read from the right; 0 when there is anything else. */
  function ScanNat(s: string): nat
    decreases |s|
  {
    if s == "" || !('0' <= s[|s| - 1] && s[|s| - 1] <= '9') then 0 else 10 * ScanNat(s[..|s| - 1]) + (s[|s| - 1] as int - '0' as int)
  }

  function ScanInt(s: string): int {
    var n: int := ScanNat(if s != "" && s[0] == '-' then s[1..] else s);
    if s != "" && s[0] == '-' then -n else n
  }

  lemma {:induction false} ScanDigits(n: nat)
    ensures ScanNat(Digits(n)) == n
    decreases n
  {
    if n >= 10 {
      ScanDigits(n / 10);
      assert Digits(n)[..|Digits(n)| - 1] == Digits(n / 10);
    } else {
      assert Digits(n)[..0] == "";
    }
  }

  lemma ScanFormatted(n: int)
    ensures ScanInt(FormatInt(n)) == n && '\n' !in FormatInt(n)
  {
    if n < 0 {
      ScanDigits(-n);
      assert FormatInt(n)[1..] == Digits(-n);
    } else {
      ScanDigits(n);
    }
  }

  // ---------------------------------------------------------------- web sessions

  datatype WebCreds = WebCreds(username: string, password: string, targetUrl: string, targetKind: string,
                               portalUsername: string, portalPassword: string)

  function WebFields(c: WebCreds): seq<string> {
    [c.username, c.password, c.targetUrl, c.targetKind, c.portalUsername, c.portalPassword]
  }

  function StoreWebCreds(c: WebCreds): string {
    JoinLines(WebFields(c))
  }

  function LoadWebCreds(raw: string): WebCreds {
    var parts := SplitN(raw, 6);
    WebCreds(Part(parts, 0), Part(parts, 1), Part(parts, 2), Part(parts, 3), Part(parts, 4), Part(parts, 5))
  }

  lemma JoinOne(a: string, rest: seq<string>)
    requires rest != []
    ensures JoinLines([a] + rest) == a + ("\n" + JoinLines(rest))
  {
    assert ([a] + rest)[1..] == rest;
    assert a + "\n" + JoinLines(rest) == a + ("\n" + JoinLines(rest));
  }

  lemma JoinThree(a: string, b: string, c: string, rest: seq<string>)
    requires rest != []
    ensures JoinLines([a, b, c] + rest) == a + ("\n" + (b + ("\n" + (c + ("\n" + JoinLines(rest))))))
  {
    assert [a, b, c] + rest == [a] + ([b] + ([c] + rest));
    JoinOne(a, [b] + ([c] + rest));
    JoinOne(b, [c] + rest);
    JoinOne(c, rest);
  }

  lemma JoinLast(a: string, b: string, c: string)
    ensures JoinLines([a, b, c]) == a + ("\n" + (b + ("\n" + c)))
  {
    assert [a, b, c] == [a] + ([b] + [c]);
    JoinOne(a, [b] + [c]);
    JoinOne(b, [c]);
  }

  /** The payload: the fields in this order, a newline between neighbours. */
  lemma WebPayload(c: WebCreds)
    ensures StoreWebCreds(c) ==
            c.username + ("\n" + (c.password + ("\n" + (c.targetUrl + ("\n" +
            (c.targetKind + ("\n" + (c.portalUsername + ("\n" + c.portalPassword)))))))))
  {
    assert WebFields(c) == [c.username, c.password, c.targetUrl] + [c.targetKind, c.portalUsername, c.portalPassword];
    JoinThree(c.username, c.password, c.targetUrl, [c.targetKind, c.portalUsername, c.portalPassword]);
    JoinLast(c.targetKind, c.portalUsername, c.portalPassword);
  }

  /** A web session's credentials survive the vault exactly when only the portal password may hold a newline. */
  lemma WebCredsRoundTrip(c: WebCreds)
    ensures LoadWebCreds(StoreWebCreds(c)) == c <==>
            '\n' !in c.username && '\n' !in c.password && '\n' !in c.targetUrl && '\n' !in c.targetKind && '\n' !in c.portalUsername
  {
    var f := WebFields(c);
    WebOneLine(c);
    SplitJoined(f);
    if !OneLine(f) {
      var n :| 0 <= n < |f| - 1 && '\n' in f[n];
      var i := FirstCut(f, n);
      CutField(f, i);
      assert WebFields(LoadWebCreds(StoreWebCreds(c)))[i] != f[i];
    }
  }

  lemma WebOneLine(c: WebCreds)
    ensures OneLine(WebFields(c)) <==>
            '\n' !in c.username && '\n' !in c.password && '\n' !in c.targetUrl && '\n' !in c.targetKind && '\n' !in c.portalUsername
  {
    var f := WebFields(c);
    assert f[0] == c.username && f[1] == c.password && f[2] == c.targetUrl && f[3] == c.targetKind && f[4] == c.portalUsername;
  }

  // ---------------------------------------------------------------- database sessions

  datatype DbCreds = DbCreds(engine: string, username: string, password: string, host: string, port: int, database: string,
                             brokerToken: string, portalUser: string, portalUserId: int, targetId: int, targetKind: string)

  function DbFields(c: DbCreds): seq<string> {
    [c.engine, c.username, c.password, c.host, FormatInt(c.port), c.database, c.brokerToken, FormatInt(c.portalUserId),
     FormatInt(c.targetId), c.portalUser, c.targetKind]
  }

  function StoreDbCreds(c: DbCreds): string {
    JoinLines(DbFields(c))
  }

  function LoadDbCreds(raw: string): DbCreds {
    var parts := SplitN(raw, 11);
    DbCreds(Part(parts, 0), Part(parts, 1), Part(parts, 2), Part(parts, 3), ScanInt(Part(parts, 4)), Part(parts, 5),
            Part(parts, 6), Part(parts, 9), ScanInt(Part(parts, 7)), ScanInt(Part(parts, 8)), Part(parts, 10))
  }

  lemma LoadedText(raw: string, i: nat)
    requires i < 11 && i != 4 && i != 7 && i != 8
    ensures DbFields(LoadDbCreds(raw))[i] == Part(SplitN(raw, 11), i)
  {
  }

  lemma LoadedField(c: DbCreds, i: nat)
    requires i < 10 && '\n' in DbFields(c)[i] && forall k | 0 <= k < i :: '\n' !in DbFields(c)[k]
    ensures LoadDbCreds(StoreDbCreds(c)) != c
  {
    NumbersAreOneLine(c);
    CutField(DbFields(c), i);
    LoadedText(StoreDbCreds(c), i);
  }

  lemma NumbersAreOneLine(c: DbCreds)
    ensures '\n' !in DbFields(c)[4] && '\n' !in DbFields(c)[7] && '\n' !in DbFields(c)[8]
    ensures ScanInt(DbFields(c)[4]) == c.port && ScanInt(DbFields(c)[7]) == c.portalUserId && ScanInt(DbFields(c)[8]) == c.targetId
  {
    ScanFormatted(c.port);
    ScanFormatted(c.portalUserId);
    ScanFormatted(c.targetId);
  }

  /** The payload: the fields in this order, a newline between neighbours. */
  lemma DbPayload(c: DbCreds)
    ensures StoreDbCreds(c) ==
            c.engine + ("\n" + (c.username + ("\n" + (c.password + ("\n" +
            (c.host + ("\n" + (FormatInt(c.port) + ("\n" + (c.database + ("\n" +
            (c.brokerToken + ("\n" + (FormatInt(c.portalUserId) + ("\n" + (FormatInt(c.targetId) + ("\n" +
            (c.portalUser + ("\n" + c.targetKind)))))))))))))))))))
  {
    var last := [c.portalUser, c.targetKind];
    var ids := [c.brokerToken, FormatInt(c.portalUserId), FormatInt(c.targetId)];
    var place := [c.host, FormatInt(c.port), c.database];
    assert DbFields(c) == [c.engine, c.username, c.password] + (place + (ids + last));
    JoinThree(c.engine, c.username, c.password, place + (ids + last));
    JoinThree(c.host, FormatInt(c.port), c.database, ids + last);
    JoinThree(c.brokerToken, FormatInt(c.portalUserId), FormatInt(c.targetId), last);
    JoinOne(c.portalUser, [c.targetKind]);
    assert last == [c.portalUser] + [c.targetKind];
  }

  lemma DbOneLine(c: DbCreds)
    ensures OneLine(DbFields(c)) <==>
            && '\n' !in c.engine && '\n' !in c.username && '\n' !in c.password && '\n' !in c.host && '\n' !in c.database
            && '\n' !in c.brokerToken && '\n' !in c.portalUser
  {
    NumbersAreOneLine(c);
    OneLineTen(DbFields(c));
  }

  lemma OneLineTen(f: seq<string>)
    requires |f| == 11
    ensures OneLine(f) <==>
            && '\n' !in f[0] && '\n' !in f[1] && '\n' !in f[2] && '\n' !in f[3] && '\n' !in f[4] && '\n' !in f[5]
            && '\n' !in f[6] && '\n' !in f[7] && '\n' !in f[8] && '\n' !in f[9]
  {
  }

  /** A database session's credentials survive the vault exactly when only the target's kind may hold a newline. */
  lemma DbCredsRoundTrip(c: DbCreds)
    ensures LoadDbCreds(StoreDbCreds(c)) == c <==>
            && '\n' !in c.engine && '\n' !in c.username && '\n' !in c.password && '\n' !in c.host && '\n' !in c.database
            && '\n' !in c.brokerToken && '\n' !in c.portalUser
  {
    var f := DbFields(c);
    DbOneLine(c);
    SplitJoined(f);
    NumbersAreOneLine(c);
    if !OneLine(f) {
      var n :| 0 <= n < |f| - 1 && '\n' in f[n];
      var i := FirstCut(f, n);
      LoadedField(c, i);
    }
  }
}
