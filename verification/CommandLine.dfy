/**
 Normalizing a command line and matching it against allow and deny patterns, for any expander of single
 tokens.  `CommandPolicy` supplies the IOS expander and draws the conclusions.
 */
module CommandLine {
  import opened Text
  import opened Option
  import opened TokenExpansion
  import opened CiscoCli

  type Expander = (string, seq<string>) -> string

  // ---------------------------------------------------------------- normal form

  /** The "do" that runs an exec command from configuration mode is dropped, once. */
  function StripDo(fields: seq<string>): seq<string> {
    if |fields| >= 2 && fields[0] == "do" then fields[1..] else fields
  }

  function Normalize(e: Expander, cmd: string): string {
    var text := Lower(TrimSpace(cmd));
    if text == "" then text else Join(ExpandWith(e, StripDo(Fields(text))))
  }

  /** The words of a command, lower-cased. */
  function Typed(cmd: string): seq<string> {
    LowerWords(Fields(cmd))
  }

  function NormalWords(e: Expander, cmd: string): seq<string> {
    ExpandWith(e, StripDo(Typed(cmd)))
  }

  /** Expanding an expansion in its place changes nothing. */
  ghost predicate Settles(e: Expander) {
    forall t, prev :: e(e(t, prev), prev) == e(t, prev)
  }

  /** Words expand to words. */
  ghost predicate KeepsWords(e: Expander) {
    forall t, prev :: Word(t) && IsLower(t) ==> Word(e(t, prev)) && IsLower(e(t, prev))
  }

  /** "do" stands for itself, nothing else stands for it, and it is no parent to what follows it. */
  ghost predicate PlainDo(e: Expander) {
    && (forall t :: Word(t) && IsLower(t) ==> (e(t, []) == "do" <==> t == "do"))
    && (forall t, prev | |prev| <= 2 :: e(t, ["do"] + prev) == e(t, prev))
  }

  ghost predicate Regular(e: Expander) {
    Settles(e) && KeepsWords(e) && PlainDo(e) && e("exit", []) == "exit"
  }

  /** An expander that looks tokens up in lawful tables is regular. */
  lemma ExpandsByTables(tb: Tables, e: Expander)
    requires Lawful(tb) && DoStandsAlone(tb) && Normal("exit") && tb.alias("exit") == Some("exit")
    requires forall t, prev :: e(t, prev) == Expand(tb, t, prev)
    ensures Regular(e)
  {
    forall t: string, prev: seq<string> ensures e(e(t, prev), prev) == e(t, prev) {
      TokenSettles(tb, t, prev);
    }
    forall t: string, prev: seq<string> | Word(t) && IsLower(t) ensures Word(e(t, prev)) && IsLower(e(t, prev)) {
      TokenKeepsWord(tb, t, prev);
    }
    forall t: string | Word(t) && IsLower(t) ensures e(t, []) == "do" <==> t == "do" {
      OnlyDoIsDo(tb, t);
    }
    forall t: string, prev: seq<string> | |prev| <= 2 ensures e(t, ["do"] + prev) == e(t, prev) {
      DoIsNoParent(tb, t, prev);
    }
    AliasStays(tb, "exit");
  }

  lemma TypedAreWords(cmd: string)
    ensures Words(Typed(cmd)) && AllLower(Typed(cmd))
  {
    FieldsAreWords(cmd);
    var f := Fields(cmd);
    forall i | 0 <= i < |f| ensures Word(Lower(f[i])) && IsLower(Lower(f[i])) {
      assert Word(f[i]);
      forall k | 0 <= k < |f[i]| ensures !IsSpace(Lower(f[i])[k]) {
        assert !IsSpace(f[i][k]);
      }
      LowerTwice(f[i]);
    }
  }

  lemma {:induction false} ExpansionKeepsWords(e: Expander, fields: seq<string>)
    requires KeepsWords(e) && Words(fields) && AllLower(fields)
    ensures Words(ExpandWith(e, fields)) && AllLower(ExpandWith(e, fields))
  {
    if fields != [] {
      ExpansionKeepsWords(e, fields[..|fields| - 1]);
      assert Word(fields[|fields| - 1]) && IsLower(fields[|fields| - 1]);
    }
  }

  lemma NormalWordsAreWords(e: Expander, cmd: string)
    requires KeepsWords(e)
    ensures Words(NormalWords(e, cmd)) && AllLower(NormalWords(e, cmd))
  {
    TypedAreWords(cmd);
    ExpansionKeepsWords(e, StripDo(Typed(cmd)));
  }

  lemma NormalizeIsJoin(e: Expander, cmd: string)
    ensures Normalize(e, cmd) == Join(NormalWords(e, cmd))
  {
    FieldsTrim(cmd);
    FieldsLower(TrimSpace(cmd));
  }

  lemma LowerWordsOfLower(ws: seq<string>)
    requires AllLower(ws)
    ensures LowerWords(ws) == ws
  {
    forall i | 0 <= i < |ws| ensures LowerWords(ws)[i] == ws[i] {
      assert IsLower(ws[i]);
    }
  }

  /** Splitting a normal form gives its words back. */
  lemma TypedOfNormal(e: Expander, cmd: string)
    requires KeepsWords(e)
    ensures Typed(Normalize(e, cmd)) == NormalWords(e, cmd)
  {
    NormalizeIsJoin(e, cmd);
    NormalWordsAreWords(e, cmd);
    FieldsJoin(NormalWords(e, cmd));
    LowerWordsOfLower(NormalWords(e, cmd));
  }

  lemma NormalOfNormal(e: Expander, cmd: string)
    requires KeepsWords(e)
    ensures Normalize(e, Normalize(e, cmd)) == Join(ExpandWith(e, StripDo(NormalWords(e, cmd))))
  {
    TypedOfNormal(e, cmd);
    NormalizeIsJoin(e, Normalize(e, cmd));
  }

  // ---------------------------------------------------------------- idempotence

  /** Two "do"s in front of something: the one input shape on which normalizing is not idempotent. */
  predicate DoubleDo(cmd: string) {
    |Typed(cmd)| >= 3 && Typed(cmd)[0] == "do" && Typed(cmd)[1] == "do"
  }

  lemma FirstIsDo(e: Expander, fields: seq<string>)
    requires PlainDo(e) && Words(fields) && AllLower(fields) && fields != []
    ensures ExpandWith(e, fields)[0] == "do" <==> fields[0] == "do"
  {
    ExpansionAt(e, fields, 0);
    assert Word(fields[0]) && IsLower(fields[0]);
    assert LastThree(ExpandWith(e, fields)[..0]) == [];
  }

  lemma DoIsWord()
    ensures Word("do") && IsLower("do")
  {
    assert "do"[0] == 'd' && "do"[1] == 'o';
    assert Lower("do") == "do";
  }

  lemma ExpandOneMore(e: Expander, init: seq<string>, last: string)
    ensures ExpandWith(e, init + [last]) == ExpandWith(e, init) + [e(last, LastThree(ExpandWith(e, init)))]
  {
    assert (init + [last])[..|init|] == init;
  }

  lemma LoneDo(e: Expander)
    requires PlainDo(e)
    ensures ExpandWith(e, ["do"]) == ["do"]
  {
    DoIsWord();
    ExpandOneMore(e, [], "do");
    assert [] + ["do"] == ["do"];
    assert LastThree(ExpandWith(e, [])) == [];
  }

  /** A "do" in front makes no difference to the next word. */
  lemma SameAfterDo(e: Expander, t: string, before: seq<string>)
    requires PlainDo(e)
    ensures e(t, LastThree(["do"] + before)) == e(t, LastThree(before))
  {
    if |before| <= 2 {
      assert LastThree(["do"] + before) == ["do"] + before && LastThree(before) == before;
    } else {
      assert LastThree(["do"] + before) == LastThree(before);
    }
  }

  lemma {:induction false} LeadingDo(e: Expander, fields: seq<string>)
    requires PlainDo(e)
    ensures ExpandWith(e, ["do"] + fields) == ["do"] + ExpandWith(e, fields)
    decreases |fields|
  {
    if fields == [] {
      LoneDo(e);
      assert ["do"] + fields == ["do"] && ExpandWith(e, fields) == [];
    } else {
      var init, last := fields[..|fields| - 1], fields[|fields| - 1];
      LeadingDo(e, init);
      assert fields == init + [last] && ["do"] + fields == (["do"] + init) + [last];
      ExpandOneMore(e, init, last);
      ExpandOneMore(e, ["do"] + init, last);
      SameAfterDo(e, last, ExpandWith(e, init));
    }
  }

  lemma NormalLeadsWithDo(e: Expander, cmd: string)
    requires KeepsWords(e) && PlainDo(e)
    ensures |NormalWords(e, cmd)| >= 2 && NormalWords(e, cmd)[0] == "do" <==> DoubleDo(cmd)
  {
    var stripped := StripDo(Typed(cmd));
    TypedAreWords(cmd);
    if stripped != [] {
      FirstIsDo(e, stripped);
    }
  }

  lemma NormalizeIdempotent(e: Expander, cmd: string)
    requires Regular(e)
    ensures Normalize(e, Normalize(e, cmd)) == Normalize(e, cmd) <==> !DoubleDo(cmd)
  {
    NormalLeadsWithDo(e, cmd);
    NormalOfNormal(e, cmd);
    NormalizeIsJoin(e, cmd);
    if DoubleDo(cmd) {
      ShorterTwice(e, cmd);
    } else {
      ExpansionSettles(e, StripDo(Typed(cmd)));
    }
  }

  lemma DoubleDoWords(e: Expander, cmd: string)
    requires PlainDo(e) && DoubleDo(cmd)
    ensures var rest := ExpandWith(e, Typed(cmd)[2..]);
            rest != [] && NormalWords(e, cmd) == ["do"] + rest
  {
    var tail := Typed(cmd)[2..];
    assert StripDo(Typed(cmd)) == ["do"] + tail;
    LeadingDo(e, tail);
  }

  lemma StripLeadingDo(rest: seq<string>)
    requires rest != []
    ensures StripDo(["do"] + rest) == rest
  {
    assert (["do"] + rest)[1..] == rest;
  }

  lemma JoinAfterDo(rest: seq<string>)
    requires rest != []
    ensures Join(["do"] + rest) == "do " + Join(rest)
  {
    JoinConcat(["do"], rest);
  }

  /** With two "do"s, the second normalization drops the second one and changes nothing else. */
  lemma ShorterTwice(e: Expander, cmd: string)
    requires Regular(e) && DoubleDo(cmd)
    ensures var rest := ExpandWith(e, Typed(cmd)[2..]);
            && rest != []
            && NormalWords(e, cmd) == ["do"] + rest
            && Normalize(e, cmd) == "do " + Join(rest)
            && Normalize(e, Normalize(e, cmd)) == Join(rest)
  {
    var rest := ExpandWith(e, Typed(cmd)[2..]);
    DoubleDoWords(e, cmd);
    NormalOfNormal(e, cmd);
    NormalizeIsJoin(e, cmd);
    StripLeadingDo(rest);
    ExpansionSettles(e, Typed(cmd)[2..]);
    JoinAfterDo(rest);
  }

  /** Case does not matter. */
  lemma CaseDoesNotMatter(e: Expander, a: string, b: string)
    requires |a| == |b|
    requires forall i | 0 <= i < |a| :: a[i] == b[i]
               || ('A' <= a[i] <= 'Z' && a[i] as int + 32 == b[i] as int) || ('A' <= b[i] <= 'Z' && b[i] as int + 32 == a[i] as int)
    ensures Normalize(e, a) == Normalize(e, b)
  {
    LowerMeans(a);
    LowerMeans(b);
    assert Lower(a) == Lower(b);
    FieldsLower(a);
    FieldsLower(b);
    NormalizeIsJoin(e, a);
    NormalizeIsJoin(e, b);
  }

  lemma FieldsAfterBlank(cmd: string)
    ensures Fields(" " + cmd) == Fields(cmd)
  {
    FieldsConcat("", ' ', cmd);
    assert "" + [' '] + cmd == " " + cmd && Fields("") == [];
  }

  lemma DoInFront(cmd: string)
    ensures Typed("do " + cmd) == ["do"] + Typed(cmd)
  {
    DoIsWord();
    FieldsAfterBlank(cmd);
    FieldsOfWord("do", " " + cmd);
    assert "do" + (" " + cmd) == "do " + cmd;
    assert LowerWords(["do"] + Fields(cmd)) == ["do"] + Typed(cmd);
  }

  lemma StripOne(words: seq<string>)
    requires words != [] && words[0] != "do"
    ensures StripDo(["do"] + words) == words && StripDo(words) == words
  {
    assert (["do"] + words)[1..] == words;
  }

  /** A "do" in front of a command that does not itself begin with one does not matter. */
  lemma LeadingDoIgnored(e: Expander, cmd: string)
    requires Typed(cmd) != [] && Typed(cmd)[0] != "do"
    ensures Normalize(e, "do " + cmd) == Normalize(e, cmd)
  {
    DoInFront(cmd);
    StripOne(Typed(cmd));
    NormalizeIsJoin(e, "do " + cmd);
    NormalizeIsJoin(e, cmd);
  }

  lemma TypedTwo(a: string, b: string)
    requires Word(a) && IsLower(a) && Word(b) && IsLower(b)
    ensures Typed(a + " " + b) == [a, b]
  {
    JoinTwo(a, b);
    FieldsJoin([a, b]);
    LowerWordsOfLower([a, b]);
  }

  lemma JoinTwo(a: string, b: string)
    ensures Join([a, b]) == a + " " + b
  {
    assert [a, b][1..] == [b];
  }

  lemma ExpandFirst(e: Expander, a: string)
    ensures ExpandWith(e, [a]) == [e(a, [])]
  {
    ExpandOneMore(e, [], a);
    assert [] + [a] == [a] && ExpandWith(e, []) == [] && LastThree([]) == [];
  }

  lemma ExpandTwo(e: Expander, a: string, b: string)
    ensures ExpandWith(e, [a, b]) == [e(a, []), e(b, [e(a, [])])]
  {
    ExpandFirst(e, a);
    ExpandOneMore(e, [a], b);
    assert [a] + [b] == [a, b] && LastThree([e(a, [])]) == [e(a, [])];
  }

  /** Two words: the first expands alone, the second after the first one's expansion. */
  lemma TwoWords(e: Expander, a: string, b: string)
    requires Word(a) && IsLower(a) && Word(b) && IsLower(b) && a != "do"
    ensures Normalize(e, a + " " + b) == e(a, []) + " " + e(b, [e(a, [])])
  {
    TypedTwo(a, b);
    NormalizeIsJoin(e, a + " " + b);
    ExpandTwo(e, a, b);
    assert [a, b][0] == a && StripDo([a, b]) == [a, b];
    assert NormalWords(e, a + " " + b) == [e(a, []), e(b, [e(a, [])])];
    JoinTwo(e(a, []), e(b, [e(a, [])]));
  }

  // ---------------------------------------------------------------- matching

  predicate ControlWord(w: string) {
    w == "exit" || w == "end" || w == "logout" || w == "logoff" || w == "quit" || w == "disable"
  }

  predicate SessionControl(e: Expander, cmd: string) {
    ControlWord(Normalize(e, cmd))
  }

  /** The pattern's normal form is not empty and begins the command. */
  predicate HitBy(e: Expander, cmd: string, pattern: string) {
    var p := Normalize(e, pattern);
    p != "" && p <= cmd
  }

  predicate Hit(e: Expander, cmd: string, patterns: seq<string>) {
    exists i | 0 <= i < |patterns| :: HitBy(e, cmd, patterns[i])
  }

  /** Session control always passes; then deny wins; then an allow list, if there is one, decides. */
  predicate Allowed(e: Expander, cmd: string, allow: seq<string>, deny: seq<string>) {
    var c := Normalize(e, cmd);
    SessionControl(e, c) || (!Hit(e, c, deny) && (allow == [] || Hit(e, c, allow)))
  }

  lemma HitMeans(e: Expander, cmd: string, patterns: seq<string>)
    ensures Hit(e, cmd, patterns) <==> exists p :: p in patterns && Normalize(e, p) != "" && Normalize(e, p) <= cmd
  {
    if Hit(e, cmd, patterns) {
      var i :| 0 <= i < |patterns| && HitBy(e, cmd, patterns[i]);
      assert patterns[i] in patterns;
    }
    forall p | p in patterns && Normalize(e, p) != "" && Normalize(e, p) <= cmd ensures Hit(e, cmd, patterns) {
      HitByOne(e, cmd, patterns, p);
    }
  }

  lemma HitByOne(e: Expander, cmd: string, patterns: seq<string>, p: string)
    requires p in patterns && Normalize(e, p) != "" && Normalize(e, p) <= cmd
    ensures Hit(e, cmd, patterns)
  {
    var i :| 0 <= i < |patterns| && patterns[i] == p;
    assert HitBy(e, cmd, patterns[i]);
  }

  lemma ControlWordMeans(w: string)
    ensures ControlWord(w) <==> w in {"exit", "end", "logout", "logoff", "quit", "disable"}
  {
  }

  /** The verdict over normal forms and prefixes: session control passes; otherwise no deny pattern's nonempty normal form
      may begin the command's, and if there is an allow list the normal form of one of its patterns must. */
  lemma AllowedMeans(e: Expander, cmd: string, allow: seq<string>, deny: seq<string>)
    ensures Allowed(e, cmd, allow, deny) <==>
              || Normalize(e, Normalize(e, cmd)) in {"exit", "end", "logout", "logoff", "quit", "disable"}
              || (&& (forall d | d in deny :: Normalize(e, d) == "" || !(Normalize(e, d) <= Normalize(e, cmd)))
                  && (allow == [] || exists a :: a in allow && Normalize(e, a) != "" && Normalize(e, a) <= Normalize(e, cmd)))
  {
    ControlWordMeans(Normalize(e, Normalize(e, cmd)));
    HitMeans(e, Normalize(e, cmd), allow);
    HitMeans(e, Normalize(e, cmd), deny);
  }

  /** The loop over one list. */
  method AnyHit(hits: string -> bool, patterns: seq<string>) returns (hit: bool)
    ensures hit == exists i | 0 <= i < |patterns| :: hits(patterns[i])
  {
    for i := 0 to |patterns|
      invariant forall k | 0 <= k < i :: !hits(patterns[k])
    {
      if hits(patterns[i]) {
        return true;
      }
    }
    return false;
  }

  method CommandAllowed(e: Expander, cmd: string, allow: seq<string>, deny: seq<string>) returns (ok: bool)
    ensures ok == Allowed(e, cmd, allow, deny)
    ensures ok <==>
              || Normalize(e, Normalize(e, cmd)) in {"exit", "end", "logout", "logoff", "quit", "disable"}
              || (&& (forall d | d in deny :: Normalize(e, d) == "" || !(Normalize(e, d) <= Normalize(e, cmd)))
                  && (allow == [] || exists a :: a in allow && Normalize(e, a) != "" && Normalize(e, a) <= Normalize(e, cmd)))
  {
    AllowedMeans(e, cmd, allow, deny);
    var c := Normalize(e, cmd);
    if SessionControl(e, c) {
      return true;
    }
    var denied := AnyHit(pattern => HitBy(e, c, pattern), deny);
    if denied {
      return false;
    }
    if |allow| == 0 {
      return true;
    }
    ok := AnyHit(pattern => HitBy(e, c, pattern), allow);
  }

  lemma ControlIsOneWord(w: string)
    requires ControlWord(w)
    ensures Word(w) && Fields(w) == [w]
  {
    assert Word(w) by {
      assert |"exit"| == 4 && |"end"| == 3 && |"logout"| == 6 && |"logoff"| == 6 && |"quit"| == 4 && |"disable"| == 7;
    }
    FieldsOfWord(w, "");
    assert w + "" == w;
  }

  lemma VerdictsAgree(e: Expander, cmd: string, allow: seq<string>, deny: seq<string>)
    requires Regular(e)
    requires !DoubleDo(cmd) || ControlWord(Normalize(e, Normalize(e, cmd)))
    ensures Allowed(e, cmd, allow, deny) == Allowed(e, Normalize(e, cmd), allow, deny)
  {
    NormalizeIdempotent(e, cmd);
    if DoubleDo(cmd) {
      ShorterTwice(e, cmd);
      var once := Normalize(e, cmd);
      var twice := Normalize(e, once);
      var rest := ExpandWith(e, Typed(cmd)[2..]);
      ControlIsOneWord(twice);
      NormalWordsAreWords(e, cmd);
      assert forall i | 0 <= i < |rest| :: rest[i] == NormalWords(e, cmd)[i + 1];
      FieldsJoin(rest);
      TypedOfNormal(e, cmd);
      assert |Typed(once)| == 2;
      NormalizeIdempotent(e, once);
    }
  }

  /** Where the abbreviated command and its expansion can be told apart, denying the command itself does it. */
  lemma VerdictsDiffer(e: Expander, cmd: string)
    requires Regular(e) && DoubleDo(cmd) && !ControlWord(Normalize(e, Normalize(e, cmd)))
    ensures !Allowed(e, cmd, [], [cmd]) && Allowed(e, Normalize(e, cmd), [], [cmd])
  {
    ShorterTwice(e, cmd);
    var once := Normalize(e, cmd);
    assert HitBy(e, once, [cmd][0]);
  }

  // ---------------------------------------------------------------- deny patterns cover their arguments

  lemma TypedConcat(a: string, b: string)
    ensures Typed(a + " " + b) == Typed(a) + Typed(b)
  {
    FieldsConcat(a, ' ', b);
    assert LowerWords(Fields(a) + Fields(b)) == Typed(a) + Typed(b);
  }

  lemma EmptyNormal(e: Expander, d: string)
    requires KeepsWords(e)
    ensures Normalize(e, d) == "" <==> Typed(d) == []
  {
    NormalizeIsJoin(e, d);
    NormalWordsAreWords(e, d);
    if Typed(d) != [] {
      assert Word(NormalWords(e, d)[0]);
    }
  }

  lemma NormalIsDo(e: Expander, d: string)
    requires KeepsWords(e) && PlainDo(e)
    ensures Normalize(e, d) == "do" <==> StripDo(Typed(d)) == ["do"]
  {
    var s := StripDo(Typed(d));
    NormalizeIsJoin(e, d);
    NormalWordsAreWords(e, d);
    TypedAreWords(d);
    LeadingDo(e, []);
    assert ["do"] + [] == ["do"];
    if Normalize(e, d) == "do" {
      FieldsJoin(NormalWords(e, d));
      assert Word("do") by { assert "do"[0] == 'd' && "do"[1] == 'o'; }
      FieldsOfWord("do", "");
      assert "do" + "" == "do";
      FirstIsDo(e, s);
      assert s == ["do"];
    }
  }

  lemma JoinPrefix(out: seq<string>, k: nat)
    requires 0 < k < |out|
    ensures Join(out[..k]) <= Join(out)
  {
    JoinConcat(out[..k], out[k..]);
    assert out == out[..k] + out[k..];
  }

  /** What a pattern and its extension are expanded from. */
  lemma ExtensionFields(e: Expander, d: string, args: string)
    requires Regular(e) && Normalize(e, d) != "" && Normalize(e, d) != "do" && Fields(args) != []
    ensures StripDo(Typed(d + " " + args)) == StripDo(Typed(d)) + Typed(args)
    ensures StripDo(Typed(d)) != [] && StripDo(Typed(d)) != ["do"]
  {
    EmptyNormal(e, d);
    NormalIsDo(e, d);
    TypedConcat(d, args);
    StripDoConcat(Typed(d), Typed(args));
  }

  lemma StripDoConcat(d: seq<string>, a: seq<string>)
    requires d != [] && d != ["do"]
    ensures StripDo(d + a) == StripDo(d) + a
  {
    assert (d + a)[0] == d[0];
    assert (d + a)[1..] == d[1..] + a;
    if |d| == 1 {
      assert d == [d[0]];
    }
  }

  /** A pattern whose normal form is neither empty nor just "do" is a prefix of its extensions. */
  lemma ExtensionKeepsPrefix(e: Expander, d: string, args: string)
    requires Regular(e) && Normalize(e, d) != "" && Normalize(e, d) != "do" && Fields(args) != []
    ensures Normalize(e, d) <= Normalize(e, d + " " + args)
    ensures !SessionControl(e, Normalize(e, d + " " + args))
  {
    var s, a, cmd := StripDo(Typed(d)), Typed(args), d + " " + args;
    ExtensionFields(e, d, args);
    assert Normalize(e, d) <= Normalize(e, cmd) by {
      ExpansionIsCausal(e, s + a, |s|);
      assert (s + a)[..|s|] == s;
      NormalizeIsJoin(e, d);
      NormalizeIsJoin(e, cmd);
      JoinPrefix(ExpandWith(e, s + a), |s|);
    }
    TwoWordsAreNotControl(e, cmd, s + a);
  }

  lemma TwoWordsAreNotControl(e: Expander, cmd: string, fields: seq<string>)
    requires Regular(e) && fields == StripDo(Typed(cmd)) && |fields| >= 2
    requires fields[0] == "do" ==> |fields| > 2
    ensures !SessionControl(e, Normalize(e, cmd))
  {
    TypedAreWords(cmd);
    FirstIsDo(e, fields);
    NormalOfNormal(e, cmd);
    NormalWordsAreWords(e, cmd);
    var again := StripDo(NormalWords(e, cmd));
    assert |again| >= 2;
    ExpansionKeepsWords(e, again);
    var w := Join(ExpandWith(e, again));
    FieldsJoin(ExpandWith(e, again));
    if ControlWord(w) {
      ControlIsOneWord(w);
    }
  }

  lemma DenyCoversArguments(e: Expander, d: string, args: string, allow: seq<string>, deny: seq<string>)
    requires Regular(e) && Normalize(e, d) != "" && Normalize(e, d) != "do" && Fields(args) != [] && d in deny
    ensures !Allowed(e, d + " " + args, allow, deny)
  {
    ExtensionKeepsPrefix(e, d, args);
    var i :| 0 <= i < |deny| && deny[i] == d;
    assert HitBy(e, Normalize(e, d + " " + args), deny[i]);
  }

  lemma ExitIsFixed(e: Expander)
    requires Regular(e)
    ensures Normalize(e, "exit") == "exit" && Typed("exit") == ["exit"]
  {
    ControlIsOneWord("exit");
    assert Lower("exit") == "exit";
    assert Typed("exit") == ["exit"];
    NormalizeIsJoin(e, "exit");
    assert ["exit"][..0] == [] && LastThree([]) == [];
    assert ExpandWith(e, ["exit"]) == ExpandWith(e, []) + [e("exit", [])];
  }

  /** Of "exit", "do exit" and "do do exit", the last normalizes to "do exit" and the others to "exit". */
  lemma NormalExit(e: Expander, cmd: string)
    requires Regular(e)
    requires Typed(cmd) == ["exit"] || Typed(cmd) == ["do", "exit"] || Typed(cmd) == ["do", "do", "exit"]
    ensures SessionControl(e, Normalize(e, cmd))
  {
    ExitIsFixed(e);
    NormalizeIsJoin(e, "exit");
    if Typed(cmd) == ["do", "do", "exit"] {
      ShorterTwice(e, cmd);
      assert Typed(cmd)[2..] == Typed("exit");
    } else {
      assert StripDo(Typed(cmd)) == ["exit"];
      NormalizeIsJoin(e, cmd);
    }
  }

  /** The two normal forms that are left out do not cover: "exit" gets through. */
  lemma BarePatternsDoNotCover(e: Expander, d: string)
    requires Regular(e) && (Normalize(e, d) == "" || Normalize(e, d) == "do")
    ensures Allowed(e, d + " " + "exit", [], [d])
  {
    ExitIsFixed(e);
    TypedConcat(d, "exit");
    BareWords(e, d);
    NormalExit(e, d + " " + "exit");
  }

  lemma BareWords(e: Expander, d: string)
    requires Regular(e) && (Normalize(e, d) == "" || Normalize(e, d) == "do")
    ensures Typed(d) == [] || Typed(d) == ["do"] || Typed(d) == ["do", "do"]
  {
    EmptyNormal(e, d);
    NormalIsDo(e, d);
  }

  // ---------------------------------------------------------------- both directions together

  /** All allow and deny lists judge the two commands alike. */
  ghost predicate SameVerdicts(e: Expander, cmd: string, cmd': string) {
    forall allow, deny :: Allowed(e, cmd, allow, deny) == Allowed(e, cmd', allow, deny)
  }

  lemma SameVerdictsExactly(e: Expander, cmd: string)
    requires Regular(e)
    ensures SameVerdicts(e, cmd, Normalize(e, cmd)) <==> !DoubleDo(cmd) || ControlWord(Normalize(e, Normalize(e, cmd)))
  {
    if !DoubleDo(cmd) || ControlWord(Normalize(e, Normalize(e, cmd))) {
      forall allow, deny ensures Allowed(e, cmd, allow, deny) == Allowed(e, Normalize(e, cmd), allow, deny) {
        VerdictsAgree(e, cmd, allow, deny);
      }
    } else {
      VerdictsDiffer(e, cmd);
      assert Allowed(e, cmd, [], [cmd]) != Allowed(e, Normalize(e, cmd), [], [cmd]);
    }
  }

  /** Listed among the denied patterns, this one denies itself followed by any arguments, whatever else is listed. */
  ghost predicate DeniesAllArguments(e: Expander, pattern: string) {
    forall args, allow, deny | Fields(args) != [] && pattern in deny :: !Allowed(e, pattern + " " + args, allow, deny)
  }

  lemma DenyCoversExactly(e: Expander, pattern: string)
    requires Regular(e)
    ensures DeniesAllArguments(e, pattern) <==> Normalize(e, pattern) != "" && Normalize(e, pattern) != "do"
  {
    if Normalize(e, pattern) != "" && Normalize(e, pattern) != "do" {
      forall args, allow, deny | Fields(args) != [] && pattern in deny
        ensures !Allowed(e, pattern + " " + args, allow, deny)
      {
        DenyCoversArguments(e, pattern, args, allow, deny);
      }
    } else {
      BarePatternsDoNotCover(e, pattern);
      ExitIsFixed(e);
      assert pattern in [pattern];
      assert Allowed(e, pattern + " " + "exit", [], [pattern]);
    }
  }
}
