/** The command policy for IOS: what normalization and the allow and deny lists guarantee. */
module CommandPolicy {
  import opened Option
  import opened Text
  import opened CiscoTables
  import opened TokenExpansion
  import opened CiscoCli
  import opened CiscoTableFacts
  import opened CommandLine

  // ---------------------------------------------------------------- the IOS expander

  lemma ClosedIsFull(v: string)
    ensures Closed(v) ==> Full(v)
  {
  }

  predicate Kept(v: string) {
    Keyword(v) || Closed(v)
  }

  lemma KeptIsNormal(v: string)
    requires Kept(v)
    ensures Normal(v)
  {
    if Keyword(v) { KeywordsArePlain(v); } else { ClosedArePlain(v); }
    PlainIsNormal(v);
  }

  lemma KeptByAlias(v: string)
    requires Kept(v)
    ensures Own(v, Alias(v))
  {
    ClosedIsFull(v);
    AliasFacts(v);
  }

  lemma KeptByContext(parent: string, v: string)
    requires Kept(v)
    ensures Own(v, Context(parent, v))
  {
    ClosedIsFull(v);
    ContextFacts(parent, v);
  }

  lemma KeptByPrefix(v: string)
    requires Kept(v)
    ensures Own(v, UniquePrefix(v))
  {
    if Keyword(v) { KeywordKeepsItself(v); } else { ClosedHasNoExtension(v); }
  }

  lemma KeptIsFinal(v: string)
    requires Kept(v)
    ensures Final(IosTables(), v)
  {
    KeptIsNormal(v);
    KeptByAlias(v);
    KeptByPrefix(v);
    forall parent ensures Own(v, Context(parent, v)) {
      KeptByContext(parent, v);
    }
    FinalByParts(IosTables(), v);
  }

  lemma FinalByParts(tb: Tables, v: string)
    requires Normal(v) && Own(v, tb.alias(v)) && Own(v, tb.longer(v)) && forall parent :: Own(v, tb.context(parent, v))
    ensures Final(tb, v)
  {
  }

  lemma AliasIsSettled(t: string)
    ensures Settled(IosTables(), t, Alias(t))
  {
    AliasFacts(t);
    if Alias(t).Some? && Alias(t).value != t {
      KeptIsFinal(Alias(t).value);
    }
  }

  lemma ContextIsSettled(parent: string, t: string)
    ensures Settled(IosTables(), t, Context(parent, t))
  {
    ContextFacts(parent, t);
    if Context(parent, t).Some? && Context(parent, t).value != t {
      KeptIsFinal(Context(parent, t).value);
    }
  }

  lemma PrefixIsSettled(t: string)
    ensures Settled(IosTables(), t, UniquePrefix(t))
  {
    PrefixIsKeyword(t);
    if UniquePrefix(t).Some? {
      KeptIsFinal(UniquePrefix(t).value);
    }
  }

  /** Every word the IOS tables produce is a fixed point of all of them, under every parent. */
  lemma IosTablesAreLawful()
    ensures Lawful(IosTables())
  {
    forall t ensures Settled(IosTables(), t, Alias(t)) {
      AliasIsSettled(t);
    }
    forall t ensures Settled(IosTables(), t, UniquePrefix(t)) {
      PrefixIsSettled(t);
    }
    forall parent, t ensures Settled(IosTables(), t, Context(parent, t)) {
      ContextIsSettled(parent, t);
    }
  }

  lemma DoIsNoKeyword()
    ensures !Keyword("do") && !Closed("do") && Alias("do") == Some("do") && !Literal("do")
    ensures Word("do") && Lower("do") == "do"
  {
    assert "do"[0] == 'd' && "do"[1] == 'o';
  }

  lemma DoAsAlias(t: string)
    requires Alias(t) == Some("do")
    ensures t == "do"
  {
    AliasFacts(t);
    DoIsNoKeyword();
  }

  lemma DoAsPrefix(t: string)
    ensures UniquePrefix(t) != Some("do")
  {
    PrefixIsKeyword(t);
    DoIsNoKeyword();
  }

  lemma NothingFollowsDo(t: string)
    ensures Context("do", t) == None
  {
  }

  lemma NothingFollowsDoAnd(parent: string, t: string)
    ensures Context("do " + parent, t) == None
  {
    assert "do" + " " + parent == "do " + parent;
    NoTwoWordParent("do", parent, t);
  }

  lemma OnlyDoIsListedAsDo()
    ensures forall t :: Alias(t) == Some("do") ==> t == "do"
  {
    forall t | Alias(t) == Some("do") ensures t == "do" { DoAsAlias(t); }
  }

  lemma NothingBeginsDo()
    ensures forall t :: UniquePrefix(t) != Some("do")
  {
    forall t ensures UniquePrefix(t) != Some("do") { DoAsPrefix(t); }
  }

  lemma DoIsNoContext()
    ensures forall t :: Context("do", t) == None
    ensures forall parent, t :: Context("do " + parent, t) == None
  {
    forall t ensures Context("do", t) == None { NothingFollowsDo(t); }
    forall parent, t ensures Context("do " + parent, t) == None { NothingFollowsDoAnd(parent, t); }
  }

  lemma DoIsNormal()
    ensures Normal("do") && !Literal("do")
  {
    DoIsNoKeyword();
    TrimOfWord("do");
  }

  lemma DoByParts(tb: Tables)
    requires Normal("do") && !Literal("do") && tb.alias("do") == Some("do")
    requires forall t :: tb.alias(t) == Some("do") ==> t == "do"
    requires forall t :: tb.longer(t) != Some("do")
    requires (forall t :: tb.context("do", t) == None) && forall parent, t :: tb.context("do " + parent, t) == None
    ensures DoStandsAlone(tb)
  {
  }

  lemma DoInIos()
    ensures DoStandsAlone(IosTables())
  {
    DoIsNormal();
    DoIsNoKeyword();
    OnlyDoIsListedAsDo();
    NothingBeginsDo();
    DoIsNoContext();
    DoByParts(IosTables());
  }

  lemma ExitIsNormal()
    ensures Normal("exit")
  {
    assert "exit"[0] == 'e' && "exit"[1] == 'x' && "exit"[2] == 'i' && "exit"[3] == 't';
    TrimOfWord("exit");
  }

  lemma ExitIsAlias()
    ensures Alias("exit") == Some("exit")
  {
    assert "exit"[0] == 'e' && "exit"[1] == 'x' && "exit"[2] == 'i' && "exit"[3] == 't';
  }

  lemma IosIsRegular()
    ensures Regular(ExpandToken)
  {
    IosTablesAreLawful();
    DoInIos();
    ExitIsNormal();
    ExitIsAlias();
    ExpandsByTables(IosTables(), ExpandToken);
  }

  // ---------------------------------------------------------------- the operations

  function NormalizeCli(cmd: string): string {
    Normalize(ExpandToken, cmd)
  }

  predicate CliAllowed(cmd: string, allow: seq<string>, deny: seq<string>) {
    Allowed(ExpandToken, cmd, allow, deny)
  }

  // ---------------------------------------------------------------- main results

  lemma ExpandAlone(t: string, v: string)
    requires Word(t) && IsLower(t) && Lower(t) == t && !Literal(t) && Alias(t) == Some(v)
    ensures ExpandToken(t, []) == v
  {
    TrimOfWord(t);
    ExpansionOrder(IosTables(), t, []);
  }

  lemma ExpandAfter(t: string, parent: string, v: string)
    requires Word(t) && IsLower(t) && Lower(t) == t && !Literal(t) && Context(parent, t) == Some(v)
    ensures ExpandToken(t, [parent]) == v
  {
    TrimOfWord(t);
    ExpansionOrder(IosTables(), t, [parent]);
  }

  /** A plain lower-case word. */
  predicate Ready(w: string) {
    Word(w) && IsLower(w) && Lower(w) == w && !Literal(w)
  }

  /** An abbreviated command and what the tables make of its two words. */
  lemma CommandAndObject(a: string, b: string, x: string, y: string)
    requires Ready(a) && Ready(b) && a != "do" && Alias(a) == Some(x) && Context(x, b) == Some(y)
    ensures NormalizeCli(a + " " + b) == x + " " + y && Typed(a + " " + b) == [a, b]
  {
    ExpandAlone(a, x);
    ExpandAfter(b, x, y);
    TwoWords(ExpandToken, a, b);
    TypedTwo(a, b);
  }

  lemma CommandAfterDo(a: string, b: string, x: string, y: string)
    requires Ready(a) && Ready(b) && a != "do" && Alias(a) == Some(x) && Context(x, b) == Some(y)
    ensures NormalizeCli("do " + (a + " " + b)) == x + " " + y
  {
    CommandAndObject(a, b, x, y);
    LeadingDoIgnored(ExpandToken, a + " " + b);
  }

  lemma ShowRunWords()
    ensures Ready("sh") && Ready("run") && "sh" != "do"
    ensures Alias("sh") == Some("show") && Context("show", "run") == Some("running-config")
  {
    assert "sh"[0] == 's' && "sh"[1] == 'h' && "run"[0] == 'r' && "run"[1] == 'u' && "run"[2] == 'n';
  }

  lemma ConfTWords()
    ensures Ready("conf") && Ready("t") && "conf" != "do"
    ensures Alias("conf") == Some("configure") && Context("configure", "t") == Some("terminal")
  {
    assert "conf"[0] == 'c' && "conf"[1] == 'o' && "conf"[2] == 'n' && "conf"[3] == 'f' && "t"[0] == 't';
  }

  /** Abbreviations as an operator types them. */
  lemma TypicalExpansions()
    ensures NormalizeCli("sh" + " " + "run") == "show" + " " + "running-config"
    ensures NormalizeCli("do " + ("sh" + " " + "run")) == "show" + " " + "running-config"
    ensures NormalizeCli("conf" + " " + "t") == "configure" + " " + "terminal"
  {
    ShowRunWords();
    ConfTWords();
    CommandAndObject("sh", "run", "show", "running-config");
    CommandAfterDo("sh", "run", "show", "running-config");
    CommandAndObject("conf", "t", "configure", "terminal");
  }

  /** What the allow and deny lists mean for a command that is not session control. */
  lemma CliVerdict(cmd: string, allow: seq<string>, deny: seq<string>)
    ensures NormalizeCli(NormalizeCli(cmd)) !in {"exit", "end", "logout", "logoff", "quit", "disable"} ==>
              (CliAllowed(cmd, allow, deny) <==>
                 && (forall d | d in deny :: NormalizeCli(d) == "" || !(NormalizeCli(d) <= NormalizeCli(cmd)))
                 && (allow == [] || exists a :: a in allow && NormalizeCli(a) != "" && NormalizeCli(a) <= NormalizeCli(cmd)))
  {
    AllowedMeans(ExpandToken, cmd, allow, deny);
  }

  /** Normalizing is idempotent on exactly the commands that do not start with "do do" and something more. */
  lemma NormalizeCliIdempotent(cmd: string)
    ensures NormalizeCli(NormalizeCli(cmd)) == NormalizeCli(cmd) <==> !DoubleDo(cmd)
  {
    IosIsRegular();
    NormalizeIdempotent(ExpandToken, cmd);
  }

  /** An abbreviated command and its expansion get the same verdict under all lists, exactly when the command
      does not start with a double "do" or what remains of it without them is a session-control word. */
  lemma SameVerdictAsExpansion(cmd: string)
    ensures SameVerdicts(ExpandToken, cmd, NormalizeCli(cmd))
            <==> !DoubleDo(cmd) || ControlWord(NormalizeCli(NormalizeCli(cmd)))
  {
    IosIsRegular();
    SameVerdictsExactly(ExpandToken, cmd);
  }

  /** A deny pattern denies itself followed by any arguments, whatever the allow list and the other patterns,
      exactly when its normal form is neither empty nor just "do". */
  lemma DenyCoversAllArguments(pattern: string)
    ensures DeniesAllArguments(ExpandToken, pattern) <==> NormalizeCli(pattern) != "" && NormalizeCli(pattern) != "do"
  {
    IosIsRegular();
    DenyCoversExactly(ExpandToken, pattern);
  }
}
